/**
 * The conversion memo and its disk cache. Any number of goroutines ask for conversions in any
 * interleaving; each is done once, everyone gets its answer, nobody waits forever, and neither
 * converting ahead nor, where outcomes read back as they were, the disk cache changes what the
 * compile observes.
 */
module SingleFlight {
  import opened ByteStrings

  // --- Keys ---

  /** What a transform is asked; its file and position are for diagnostics alone. */
  datatype Request = Request(hook: string, value: string)

  function MemoKey(r: Request): string {
    r.hook + NUL + r.value
  }

  /** Which part of a request may hold a NUL. */
  datatype Open = NoPart | HookPart | ValuePart | BothParts

  predicate PlainBut(r: Request, open: Open) {
    (open in {NoPart, ValuePart} ==> NulFree(r.hook)) && (open in {NoPart, HookPart} ==> NulFree(r.value))
  }

  /** One memo entry serves one hook and value where only one of the two may hold a NUL. */
  lemma MemoKeyUnique(r: Request, q: Request, open: Open)
    requires PlainBut(r, open) && PlainBut(q, open) && !open.BothParts?
    ensures MemoKey(r) == MemoKey(q) <==> r == q
  {
    if MemoKey(r) == MemoKey(q) {
      if open.HookPart? {
        SplitAtLast(r.hook, r.value, q.hook, q.value);
      } else {
        SplitAtFirst(r.hook, r.value, q.hook, q.value);
      }
    }
  }

  /** Memo keys tell requests apart exactly when NULs are kept out of hooks, or out of values. */
  lemma MemoKeyExactly(open: Open)
    ensures (forall r, q :: PlainBut(r, open) && PlainBut(q, open) && MemoKey(r) == MemoKey(q) ==> r == q) <==> !open.BothParts?
  {
    if open.BothParts? {
      var r, q := Request("a" + NUL + "b", "c"), Request("a", "b" + NUL + "c");
      assert MemoKey(r) == "a" + NUL + "b" + NUL + "c" == MemoKey(q);
      assert r.hook != q.hook && PlainBut(r, open) && PlainBut(q, open);
    } else {
      forall r, q | PlainBut(r, open) && PlainBut(q, open) && MemoKey(r) == MemoKey(q) ensures r == q {
        MemoKeyUnique(r, q, open);
      }
    }
  }

  // --- The cache key ---

  datatype Source = Source(path: string, hash: string)

  /** Everything a hook said its output depends on. */
  datatype Inputs = Inputs(hook: string, value: string, params: string, sources: seq<Source>)

  datatype Part = Hook | Value | Params | Path | Hash

  /** No part but those given holds a NUL. */
  predicate InputsBut(i: Inputs, open: set<Part>) {
    && (Hook in open || NulFree(i.hook)) && (Value in open || NulFree(i.value)) && (Params in open || NulFree(i.params))
    && forall j :: 0 <= j < |i.sources| ==>
         (Path in open || NulFree(i.sources[j].path)) && (Hash in open || NulFree(i.sources[j].hash))
  }

  predicate PlainInputs(i: Inputs) {
    InputsBut(i, {})
  }

  function SourceText(sources: seq<Source>): string {
    if sources == [] then []
    else sources[0].path + NUL + (sources[0].hash + NUL + SourceText(sources[1..]))
  }

  /** The text the digest is taken of. */
  function Preimage(i: Inputs): string {
    "v2" + NUL + (i.hook + NUL + (i.value + NUL + (i.params + NUL + SourceText(i.sources))))
  }

  lemma {:induction false} SourceTextUnique(a: seq<Source>, b: seq<Source>)
    requires forall j :: 0 <= j < |a| ==> NulFree(a[j].path) && NulFree(a[j].hash)
    requires forall j :: 0 <= j < |b| ==> NulFree(b[j].path) && NulFree(b[j].hash)
    ensures SourceText(a) == SourceText(b) <==> a == b
    decreases |a|
  {
    if a != [] && b != [] && SourceText(a) == SourceText(b) {
      var x, y := a[0].hash + NUL + SourceText(a[1..]), b[0].hash + NUL + SourceText(b[1..]);
      SplitAtFirst(a[0].path, x, b[0].path, y);
      SplitAtFirst(a[0].hash, SourceText(a[1..]), b[0].hash, SourceText(b[1..]));
      SourceTextUnique(a[1..], b[1..]);
      assert a == [a[0]] + a[1..] && b == [b[0]] + b[1..];
    }
  }

  /** The digested text determines every input. */
  lemma PreimageUnique(a: Inputs, b: Inputs)
    requires PlainInputs(a) && PlainInputs(b)
    ensures Preimage(a) == Preimage(b) <==> a == b
  {
    if Preimage(a) == Preimage(b) {
      var p, q := a.params + NUL + SourceText(a.sources), b.params + NUL + SourceText(b.sources);
      var v, w := a.value + NUL + p, b.value + NUL + q;
      SplitAtFirst("v2", a.hook + NUL + v, "v2", b.hook + NUL + w);
      SplitAtFirst(a.hook, v, b.hook, w);
      SplitAtFirst(a.value, p, b.value, q);
      SplitAtFirst(a.params, SourceText(a.sources), b.params, SourceText(b.sources));
      SourceTextUnique(a.sources, b.sources);
    }
  }

  /** Two inputs that share a digested text and differ, with a NUL in one part of one of them. */
  function Colliding(part: Part): (Inputs, Inputs) {
    match part
    case Hook => (Inputs("a" + NUL + "b" + NUL + "c", "d", "e", []), Inputs("a", "b", "c", [Source("d", "e")]))
    case Value => (Inputs("a", "b" + NUL + "c" + NUL + "d", "e", []), Inputs("a", "b", "c", [Source("d", "e")]))
    case Params => (Inputs("a", "b", "c" + NUL + "d" + NUL + "e", []), Inputs("a", "b", "c", [Source("d", "e")]))
    case Path =>
      (Inputs("a", "b", "c", [Source("d" + NUL + "e" + NUL + "f", "g")]),
       Inputs("a", "b", "c", [Source("d", "e"), Source("f", "g")]))
    case Hash =>
      (Inputs("a", "b", "c", [Source("d", "e" + NUL + "f" + NUL + "g")]),
       Inputs("a", "b", "c", [Source("d", "e"), Source("f", "g")]))
  }

  lemma Regroup(a: string, b: string, c: string, rest: string)
    ensures (a + NUL + b + NUL + c) + NUL + rest == a + NUL + (b + NUL + (c + NUL + rest))
  {
  }

  lemma SourcesText(s: Source, t: Source)
    ensures SourceText([]) == [] && SourceText([s]) == s.path + NUL + (s.hash + NUL + [])
    ensures SourceText([s, t]) == s.path + NUL + (s.hash + NUL + (t.path + NUL + (t.hash + NUL + [])))
  {
    assert [s][1..] == [] && [s, t][1..] == [t] && [t][1..] == [];
  }

  lemma Collides(part: Part)
    ensures var (i, j) := Colliding(part);
            i != j && Preimage(i) == Preimage(j) && InputsBut(i, {part}) && InputsBut(j, {part})
  {
    var (i, j) := Colliding(part);
    assert |i.sources| != |j.sources|;
    var s, t := Source("d", "e"), Source("f", "g");
    SourcesText(s, t);
    SourcesText(if part.Path? || part.Hash? then i.sources[0] else s, t);
    hide SourceText;
    match part {
      case Hook => Regroup("a", "b", "c", "d" + NUL + ("e" + NUL + []));
      case Value => Regroup("b", "c", "d", "e" + NUL + []);
      case Params => Regroup("c", "d", "e", []);
      case Path => Regroup("d", "e", "f", "g" + NUL + []);
      case Hash => Regroup("e", "f", "g", []);
    }
  }

  /** The digested text tells inputs apart exactly when none of their parts may hold a NUL. */
  lemma PreimageExactly(open: set<Part>)
    ensures (forall i, j :: InputsBut(i, open) && InputsBut(j, open) && Preimage(i) == Preimage(j) ==> i == j) <==> open == {}
  {
    if open == {} {
      forall i, j | InputsBut(i, open) && InputsBut(j, open) && Preimage(i) == Preimage(j) ensures i == j {
        PreimageUnique(i, j);
      }
    } else {
      var part :| part in open;
      Collides(part);
      var (i, j) := Colliding(part);
      assert InputsBut(i, open) && InputsBut(j, open);
    }
  }

  // --- The world a run happens in ---

  type Outcome = string

  datatype Answer = Ok(outcome: Outcome) | Err(message: string)

  /** The cases of a cache key: its hook failed, the conversion cannot be cached, or its inputs. */
  datatype Keyed = KeyFailed(message: string) | Uncacheable | Cacheable(inputs: Inputs)

  /**
   * What hooks answer and transforms return, the digest, how an outcome is written to disk and read
   * back, and which part of a request may hold a NUL.
   */
  datatype World = World(
    open: Open,
    keyOf: Request -> Keyed,
    transform: Request -> Answer,
    pure: Inputs -> Answer,
    sha: string -> string,
    encode: Outcome -> Option<string>,
    decode: string -> Option<Outcome>)

  function Digest(w: World, i: Inputs): string {
    w.sha(Preimage(i))
  }

  /** Digests do not collide, and a transform is a function of what its key declares. */
  ghost predicate HonestKeys(w: World) {
    && !w.open.BothParts?
    && (forall a: string, b: string :: w.sha(a) == w.sha(b) ==> a == b)
    && (forall r: Request :: w.keyOf(r).Cacheable? ==>
          PlainInputs(w.keyOf(r).inputs) && w.transform(r) == w.pure(w.keyOf(r).inputs))
  }

  /** What is written of an outcome, if it can be written and read at all, reads back as that outcome. */
  predicate Survives(w: World, o: Outcome) {
    match w.encode(o)
    case None => true
    case Some(text) => w.decode(text).None? || w.decode(text) == Some(o)
  }

  /** Every outcome a transform gives and the cache may keep survives the disk. */
  ghost predicate OutcomesSurvive(w: World) {
    forall r: Request :: PlainBut(r, w.open) && w.keyOf(r).Cacheable? && w.transform(r).Ok? ==>
      Survives(w, w.transform(r).outcome)
  }

  ghost predicate Honest(w: World) {
    HonestKeys(w) && OutcomesSurvive(w)
  }

  /** The outcome of a conversion with no memo and no cache. */
  function Direct(w: World, r: Request): Answer {
    match w.keyOf(r)
    case KeyFailed(m) => Err(m)
    case _ => w.transform(r)
  }

  type Disk = map<string, string>

  /** The outcome stored under a digest; an entry that cannot be read is as good as none. */
  function Load(w: World, disk: Disk, digest: string): Option<Outcome> {
    if digest in disk then w.decode(disk[digest]) else None
  }

  function Store(w: World, disk: Disk, digest: string, o: Outcome): Disk {
    match w.encode(o)
    case None => disk
    case Some(text) => disk[digest := text]
  }

  /** Every entry that can be read is the transform of the inputs its key digests. */
  ghost predicate Sound(w: World, disk: Disk) {
    forall i: Inputs :: PlainInputs(i) && Load(w, disk, Digest(w, i)).Some? ==> w.pure(i) == Ok(Load(w, disk, Digest(w, i)).value)
  }

  /** Storing an outcome keeps the disk sound exactly when the outcome survives it. */
  lemma StoreSound(w: World, disk: Disk, i: Inputs, o: Outcome)
    requires HonestKeys(w) && Sound(w, disk) && PlainInputs(i) && w.pure(i) == Ok(o)
    ensures Sound(w, Store(w, disk, Digest(w, i), o)) <==> Survives(w, o)
  {
    var d, after := Digest(w, i), Store(w, disk, Digest(w, i), o);
    if Survives(w, o) {
      forall j: Inputs | PlainInputs(j) && Load(w, after, Digest(w, j)).Some?
        ensures w.pure(j) == Ok(Load(w, after, Digest(w, j)).value)
      {
        if Digest(w, j) == d {
          PreimageUnique(i, j);
        }
      }
    } else {
      assert Load(w, after, d).Some? && w.pure(i) != Ok(Load(w, after, d).value);
    }
  }

  // --- Goroutines ---

  /** A memo entry's once: not begun, being done by a goroutine, or done. */
  datatype Once = Fresh | Busy(runner: nat) | Done(answer: Answer)

  datatype Phase =
    | Idle
    | Holding                                  // has the lock, about to look the key up
    | Found(e: nat)                            // has the entry, still holds the lock
    | Entered(e: nat)                          // has let go of the lock, about to run the once
    | Keying(e: nat)                           // inside the once: declaring the cache key
    | Loading(e: nat, inputs: Inputs)          // reading the disk
    | Transforming(e: nat, keep: Option<Inputs>)
    | Storing(e: nat, inputs: Inputs, outcome: Outcome)
    | Leaving(e: nat)                          // the once is done

  predicate InOnce(p: Phase) {
    p.Keying? || p.Loading? || p.Transforming? || p.Storing?
  }

  datatype Call = Call(request: Request, answer: Answer)

  datatype Thread = Thread(todo: seq<Request>, phase: Phase, log: seq<Call>)

  datatype State = State(
    lock: Option<nat>,
    entries: map<string, nat>,
    onces: seq<Once>,
    threads: seq<Thread>,
    disk: Disk,
    begun: multiset<string>)

  /** A goroutine's step, with what the transform returns or whether the store succeeds, or another process's write. */
  datatype Label = Move(t: nat, result: Answer, stored: bool) | Outside(disk: Disk)

  function SetThread(s: State, t: nat, th: Thread): State
    requires t < |s.threads|
  {
    s.(threads := s.threads[t := th])
  }

  function Enter(s: State, t: nat, p: Phase): State
    requires t < |s.threads|
  {
    SetThread(s, t, s.threads[t].(phase := p))
  }

  /** The conversion inside the once ends with an answer. */
  function Finish(s: State, t: nat, e: nat, a: Answer): State
    requires t < |s.threads| && e < |s.onces|
  {
    Enter(s, t, Leaving(e)).(onces := s.onces[e := Done(a)])
  }

  /** One step, or None when the label cannot happen now. */
  function Apply(w: World, s: State, l: Label): Option<State> {
    match l
    case Outside(disk) => Some(s.(disk := disk))
    case Move(t, result, stored) =>
      if t >= |s.threads| then None else Advance(w, s, t, result, stored)
  }

  function Advance(w: World, s: State, t: nat, result: Answer, stored: bool): Option<State>
    requires t < |s.threads|
  {
    var th := s.threads[t];
    if th.todo == [] then None
    else
      var r := th.todo[0];
      var key := MemoKey(r);
      match th.phase
      case Idle => if s.lock.Some? then None else Some(Enter(s, t, Holding).(lock := Some(t)))
      case Holding =>
        if key in s.entries then Some(Enter(s, t, Found(s.entries[key])))
        else Some(Enter(s, t, Found(|s.onces|)).(entries := s.entries[key := |s.onces|], onces := s.onces + [Fresh]))
      case Found(e) => Some(Enter(s, t, Entered(e)).(lock := None))
      case Entered(e) =>
        if e >= |s.onces| then None
        else (match s.onces[e]
              case Busy(_) => None
              case Done(a) => Some(Enter(s, t, Leaving(e)))
              case Fresh => Some(Enter(s, t, Keying(e)).(onces := s.onces[e := Busy(t)], begun := s.begun + multiset{key})))
      case Keying(e) =>
        if e >= |s.onces| then None
        else (match w.keyOf(r)
              case KeyFailed(m) => Some(Finish(s, t, e, Err(m)))
              case Uncacheable => Some(Enter(s, t, Transforming(e, None)))
              case Cacheable(inputs) => Some(Enter(s, t, Loading(e, inputs))))
      case Loading(e, inputs) =>
        if e >= |s.onces| then None
        else (match Load(w, s.disk, Digest(w, inputs))
              case Some(o) => Some(Finish(s, t, e, Ok(o)))
              case None => Some(Enter(s, t, Transforming(e, Some(inputs)))))
      case Transforming(e, keep) =>
        if e >= |s.onces| then None
        else if result.Ok? && keep.Some? then Some(Enter(s, t, Storing(e, keep.value, result.outcome)))
        else Some(Finish(s, t, e, result))
      case Storing(e, inputs, o) =>
        if e >= |s.onces| then None
        else Some(Finish(s, t, e, Ok(o)).(disk := if stored then Store(w, s.disk, Digest(w, inputs), o) else s.disk))
      case Leaving(e) =>
        if e >= |s.onces| || !s.onces[e].Done? then None
        else Some(SetThread(s, t, Thread(th.todo[1..], Idle, th.log + [Call(r, s.onces[e].answer)])))
  }

  function Run(w: World, s: State, labels: seq<Label>): Option<State>
    decreases |labels|
  {
    if labels == [] then Some(s)
    else match Apply(w, s, labels[0])
      case None => None
      case Some(t) => Run(w, t, labels[1..])
  }

  function Start(programs: seq<seq<Request>>, disk: Disk): State {
    State(None, map[], [], seq(|programs|, t requires 0 <= t < |programs| => Thread(programs[t], Idle, [])), disk, multiset{})
  }

  // --- What every step keeps ---

  predicate Locked(p: Phase) {
    p.Holding? || p.Found?
  }

  predicate HasEntry(p: Phase) {
    !p.Idle? && !p.Holding?
  }

  /** A logged answer is its entry's. */
  ghost predicate Logged(s: State, c: Call) {
    var key := MemoKey(c.request);
    key in s.entries && s.entries[key] < |s.onces| && s.onces[s.entries[key]] == Done(c.answer)
  }

  ghost predicate ThreadOk(s: State, t: nat)
    requires t < |s.threads|
  {
    var th := s.threads[t];
    && (th.phase.Idle? || th.todo != [])
    && (Locked(th.phase) <==> s.lock == Some(t))
    && (HasEntry(th.phase) ==>
          var key := MemoKey(th.todo[0]);
          && key in s.entries && s.entries[key] == th.phase.e && th.phase.e < |s.onces|
          && (InOnce(th.phase) <==> s.onces[th.phase.e] == Busy(t))
          && (th.phase.Leaving? ==> s.onces[th.phase.e].Done?))
    && (forall i :: 0 <= i < |th.log| ==> Logged(s, th.log[i]))
  }

  ghost predicate EntryOk(s: State, k: string)
    requires k in s.entries
  {
    && s.entries[k] < |s.onces|
    && s.begun[k] == (if s.onces[s.entries[k]].Fresh? then 0 else 1)
    && (s.onces[s.entries[k]].Busy? ==>
          var t := s.onces[s.entries[k]].runner;
          t < |s.threads| && InOnce(s.threads[t].phase) && s.threads[t].phase.e == s.entries[k])
  }

  ghost predicate Consistent(s: State) {
    && (s.lock.Some? ==> s.lock.value < |s.threads|)
    && (forall t :: 0 <= t < |s.threads| ==> ThreadOk(s, t))
    && (forall k :: k in s.entries ==> EntryOk(s, k))
    && (forall k, m :: k in s.entries && m in s.entries && s.entries[k] == s.entries[m] ==> k == m)
    && (forall k :: k in s.begun ==> k in s.entries)
  }

  /** Moving one goroutine along, lock in hand or not, with the entries as they are. */
  lemma {:induction false} PhaseKeeps(s: State, t: nat, p: Phase, lock: Option<nat>)
    requires Consistent(s) && t < |s.threads| && s.threads[t].todo != []
    requires Locked(p) <==> lock == Some(t)
    requires lock == s.lock || (s.lock == None && lock == Some(t)) || (s.lock == Some(t) && lock == None)
    requires InOnce(p) <==> InOnce(s.threads[t].phase)
    requires HasEntry(p) ==>
               var key := MemoKey(s.threads[t].todo[0]);
               && key in s.entries && s.entries[key] == p.e && p.e < |s.onces|
               && (InOnce(p) <==> s.onces[p.e] == Busy(t)) && (p.Leaving? ==> s.onces[p.e].Done?)
    requires InOnce(p) ==> p.e == s.threads[t].phase.e
    ensures Consistent(Enter(s, t, p).(lock := lock))
  {
    var u := Enter(s, t, p).(lock := lock);
    forall i | 0 <= i < |u.threads| ensures ThreadOk(u, i) {
      assert ThreadOk(s, i);
      assert forall c: Call :: Logged(s, c) ==> Logged(u, c);
    }
    forall k | k in u.entries ensures EntryOk(u, k) {
      assert EntryOk(s, k);
    }
    hide MemoKey;
  }

  /** The first to ask for a key adds its entry. */
  lemma {:induction false} NewEntryKeeps(s: State, t: nat)
    requires Consistent(s) && t < |s.threads| && s.threads[t].todo != [] && s.threads[t].phase.Holding?
    requires MemoKey(s.threads[t].todo[0]) !in s.entries
    ensures Consistent(Enter(s, t, Found(|s.onces|)).(entries := s.entries[MemoKey(s.threads[t].todo[0]) := |s.onces|],
                                                      onces := s.onces + [Fresh]))
  {
    hide MemoKey;
    var key := MemoKey(s.threads[t].todo[0]);
    var u := Enter(s, t, Found(|s.onces|)).(entries := s.entries[key := |s.onces|], onces := s.onces + [Fresh]);
    assert ThreadOk(s, t);
    forall c: Call | Logged(s, c) ensures Logged(u, c) {
    }
    forall i | 0 <= i < |u.threads| ensures ThreadOk(u, i) {
      assert ThreadOk(s, i);
    }
    forall k | k in u.entries ensures EntryOk(u, k) {
      if k in s.entries {
        assert EntryOk(s, k);
      }
    }
    forall k | k in s.entries ensures s.entries[k] < |s.onces| {
      assert EntryOk(s, k);
    }
    forall k, m | k in u.entries && m in u.entries && u.entries[k] == u.entries[m] ensures k == m {
    }
  }

  /** The first to run the once begins the conversion. */
  lemma {:induction false} BeginKeeps(s: State, t: nat)
    requires Consistent(s) && t < |s.threads| && s.threads[t].todo != [] && s.threads[t].phase.Entered?
    requires s.threads[t].phase.e < |s.onces| && s.onces[s.threads[t].phase.e].Fresh?
    ensures var e := s.threads[t].phase.e;
            Consistent(Enter(s, t, Keying(e)).(onces := s.onces[e := Busy(t)],
                                               begun := s.begun + multiset{MemoKey(s.threads[t].todo[0])}))
  {
    hide MemoKey;
    var e, key := s.threads[t].phase.e, MemoKey(s.threads[t].todo[0]);
    var u := Enter(s, t, Keying(e)).(onces := s.onces[e := Busy(t)], begun := s.begun + multiset{key});
    assert ThreadOk(s, t);
    forall c: Call | Logged(s, c) ensures Logged(u, c) {
    }
    forall i | 0 <= i < |u.threads| ensures ThreadOk(u, i) {
      assert ThreadOk(s, i);
    }
    forall k | k in u.entries ensures EntryOk(u, k) {
      assert EntryOk(s, k);
    }
  }

  /** The conversion ends, whatever it answers. */
  lemma {:induction false} FinishKeeps(s: State, t: nat, a: Answer, disk: Disk)
    requires Consistent(s) && t < |s.threads| && s.threads[t].todo != [] && InOnce(s.threads[t].phase)
    requires s.threads[t].phase.e < |s.onces|
    ensures Consistent(Finish(s, t, s.threads[t].phase.e, a).(disk := disk))
  {
    hide MemoKey;
    var e := s.threads[t].phase.e;
    var u := Finish(s, t, e, a).(disk := disk);
    assert ThreadOk(s, t);
    forall c: Call | Logged(s, c) ensures Logged(u, c) {
    }
    forall i | 0 <= i < |u.threads| ensures ThreadOk(u, i) {
      assert ThreadOk(s, i);
    }
    forall k | k in u.entries ensures EntryOk(u, k) {
      assert EntryOk(s, k);
    }
  }

  /** A call returns its entry's answer. */
  lemma {:induction false} LeaveKeeps(s: State, t: nat)
    requires Consistent(s) && t < |s.threads| && s.threads[t].todo != [] && s.threads[t].phase.Leaving?
    requires s.threads[t].phase.e < |s.onces| && s.onces[s.threads[t].phase.e].Done?
    ensures var th, a := s.threads[t], s.onces[s.threads[t].phase.e].answer;
            Consistent(SetThread(s, t, Thread(th.todo[1..], Idle, th.log + [Call(th.todo[0], a)])))
  {
    hide MemoKey;
    var th, a := s.threads[t], s.onces[s.threads[t].phase.e].answer;
    var u := SetThread(s, t, Thread(th.todo[1..], Idle, th.log + [Call(th.todo[0], a)]));
    assert ThreadOk(s, t);
    assert Logged(u, Call(th.todo[0], a));
    forall c: Call | Logged(s, c) ensures Logged(u, c) {
    }
    forall i | 0 <= i < |u.threads| ensures ThreadOk(u, i) {
      assert ThreadOk(s, i);
    }
    forall k | k in u.entries ensures EntryOk(u, k) {
      assert EntryOk(s, k);
    }
  }

  lemma {:induction false} OutsideKeeps(s: State, disk: Disk)
    requires Consistent(s)
    ensures Consistent(s.(disk := disk))
  {
    forall i | 0 <= i < |s.threads| ensures ThreadOk(s.(disk := disk), i) {
      assert ThreadOk(s, i);
      assert forall c: Call :: Logged(s, c) ==> Logged(s.(disk := disk), c);
    }
    forall k | k in s.entries ensures EntryOk(s.(disk := disk), k) {
      assert EntryOk(s, k);
    }
  }

  lemma {:induction false} OutsideOnceKeeps(w: World, s: State, t: nat, result: Answer, stored: bool)
    requires Consistent(s) && t < |s.threads| && Advance(w, s, t, result, stored).Some? && !InOnce(s.threads[t].phase)
    ensures Consistent(Advance(w, s, t, result, stored).value)
  {
    assert ThreadOk(s, t);
    hide Consistent, MemoKey, Digest, Logged;
    match s.threads[t].phase {
      case Idle => PhaseKeeps(s, t, Holding, Some(t));
      case Holding =>
        if MemoKey(s.threads[t].todo[0]) in s.entries {
          KnownEntry(s, MemoKey(s.threads[t].todo[0]));
          PhaseKeeps(s, t, Found(s.entries[MemoKey(s.threads[t].todo[0])]), s.lock);
        } else {
          NewEntryKeeps(s, t);
        }
      case Found(e) => PhaseKeeps(s, t, Entered(e), None);
      case Entered(e) =>
        match s.onces[e] {
          case Fresh => BeginKeeps(s, t);
          case _ => PhaseKeeps(s, t, Leaving(e), s.lock);
        }
      case Leaving(e) => LeaveKeeps(s, t);
    }
  }

  lemma {:induction false} InsideOnceKeeps(w: World, s: State, t: nat, result: Answer, stored: bool)
    requires Consistent(s) && t < |s.threads| && Advance(w, s, t, result, stored).Some? && InOnce(s.threads[t].phase)
    ensures Consistent(Advance(w, s, t, result, stored).value)
  {
    assert ThreadOk(s, t);
    hide Consistent, MemoKey, Digest, Logged;
    match s.threads[t].phase {
      case Keying(e) =>
        match w.keyOf(s.threads[t].todo[0]) {
          case KeyFailed(m) => FinishKeeps(s, t, Err(m), s.disk);
          case Uncacheable => PhaseKeeps(s, t, Transforming(e, None), s.lock);
          case Cacheable(inputs) => PhaseKeeps(s, t, Loading(e, inputs), s.lock);
        }
      case Loading(e, inputs) =>
        var found := Load(w, s.disk, Digest(w, inputs));
        if found.Some? {
          FinishKeeps(s, t, Ok(found.value), s.disk);
        } else {
          PhaseKeeps(s, t, Transforming(e, Some(inputs)), s.lock);
        }
      case Transforming(e, keep) =>
        if result.Ok? && keep.Some? {
          PhaseKeeps(s, t, Storing(e, keep.value, result.outcome), s.lock);
        } else {
          FinishKeeps(s, t, result, s.disk);
        }
      case Storing(e, inputs, o) =>
        FinishKeeps(s, t, Ok(o), if stored then Store(w, s.disk, Digest(w, inputs), o) else s.disk);
    }
  }

  /** Every step of every interleaving keeps the memo consistent, whatever the transforms return. */
  lemma {:induction false} StepKeeps(w: World, s: State, l: Label)
    requires Consistent(s) && Apply(w, s, l).Some?
    ensures Consistent(Apply(w, s, l).value)
  {
    hide Consistent, Advance;
    match l {
      case Outside(disk) => OutsideKeeps(s, disk);
      case Move(t, result, stored) =>
        if InOnce(s.threads[t].phase) {
          InsideOnceKeeps(w, s, t, result, stored);
        } else {
          OutsideOnceKeeps(w, s, t, result, stored);
        }
    }
  }

  lemma {:induction false} KnownEntry(s: State, k: string)
    requires Consistent(s) && k in s.entries
    ensures s.entries[k] < |s.onces|
  {
    assert EntryOk(s, k);
  }

  lemma {:induction false} StartConsistent(programs: seq<seq<Request>>, disk: Disk)
    ensures Consistent(Start(programs, disk))
  {
  }

  // --- Single flight ---

  lemma {:induction false} RunKeeps(w: World, s: State, labels: seq<Label>)
    requires Consistent(s) && Run(w, s, labels).Some?
    ensures Consistent(Run(w, s, labels).value)
    decreases |labels|
  {
    if labels != [] {
      StepKeeps(w, s, labels[0]);
      hide Consistent, Apply;
      RunKeeps(w, Apply(w, s, labels[0]).value, labels[1..]);
    }
  }

  /** In every run each key is converted at most once. */
  lemma {:induction false} AtMostOnce(w: World, programs: seq<seq<Request>>, disk: Disk, labels: seq<Label>, key: string)
    requires Run(w, Start(programs, disk), labels).Some?
    ensures Run(w, Start(programs, disk), labels).value.begun[key] <= 1
  {
    StartConsistent(programs, disk);
    RunKeeps(w, Start(programs, disk), labels);
    var s := Run(w, Start(programs, disk), labels).value;
    if key in s.begun {
      assert EntryOk(s, key);
    }
  }

  /** In every run, calls on one key return one answer, even from transforms that are not pure. */
  lemma {:induction false} SameAnswer(w: World, programs: seq<seq<Request>>, disk: Disk, labels: seq<Label>,
                                      t: nat, i: nat, u: nat, j: nat)
    requires Run(w, Start(programs, disk), labels).Some?
    requires var s := Run(w, Start(programs, disk), labels).value;
             && t < |s.threads| && i < |s.threads[t].log| && u < |s.threads| && j < |s.threads[u].log|
             && MemoKey(s.threads[t].log[i].request) == MemoKey(s.threads[u].log[j].request)
    ensures var s := Run(w, Start(programs, disk), labels).value;
            s.threads[t].log[i].answer == s.threads[u].log[j].answer
  {
    StartConsistent(programs, disk);
    RunKeeps(w, Start(programs, disk), labels);
    var s := Run(w, Start(programs, disk), labels).value;
    assert ThreadOk(s, t) && ThreadOk(s, u);
    assert Logged(s, s.threads[t].log[i]) && Logged(s, s.threads[u].log[j]);
  }

  // --- Nobody waits forever ---

  ghost predicate CanMove(w: World, s: State, t: nat) {
    t < |s.threads| && Advance(w, s, t, Err(""), false).Some?
  }

  /** While any call is left some goroutine can move. */
  lemma {:induction false} NeverStuck(w: World, s: State, t: nat) returns (u: nat)
    requires Consistent(s) && t < |s.threads| && s.threads[t].todo != []
    ensures CanMove(w, s, u)
  {
    u := t;
    assert ThreadOk(s, t);
    if s.lock.Some? {
      u := s.lock.value;
      assert ThreadOk(s, u);
    } else if s.threads[t].phase.Entered? && s.onces[s.threads[t].phase.e].Busy? {
      assert EntryOk(s, MemoKey(s.threads[t].todo[0]));
      u := s.onces[s.threads[t].phase.e].runner;
      assert ThreadOk(s, u);
    }
  }

  function Rank(p: Phase): nat {
    match p
    case Idle => 9
    case Holding => 8
    case Found(_) => 7
    case Entered(_) => 6
    case Keying(_) => 5
    case Loading(_, _) => 4
    case Transforming(_, _) => 3
    case Storing(_, _, _) => 2
    case Leaving(_) => 1
  }

  function Left(th: Thread): nat {
    if th.todo == [] then 0 else 9 * (|th.todo| - 1) + Rank(th.phase)
  }

  function Work(threads: seq<Thread>): nat {
    if threads == [] then 0 else Left(threads[0]) + Work(threads[1..])
  }

  lemma {:induction false} WorkDrops(threads: seq<Thread>, t: nat, th: Thread)
    requires t < |threads| && Left(th) < Left(threads[t])
    ensures Work(threads[t := th]) < Work(threads)
  {
    if t == 0 {
      assert threads[t := th][1..] == threads[1..];
    } else {
      assert threads[t := th][1..] == threads[1..][t - 1 := th];
      WorkDrops(threads[1..], t - 1, th);
    }
  }

  /** A move changes one goroutine. */
  lemma {:induction false} MoveOne(w: World, s: State, t: nat, result: Answer, stored: bool)
    requires t < |s.threads| && Advance(w, s, t, result, stored).Some?
    ensures var u := Advance(w, s, t, result, stored).value;
            |u.threads| == |s.threads| && u.threads == s.threads[t := u.threads[t]]
  {
    hide MemoKey, Digest;
    var u := Advance(w, s, t, result, stored).value;
    assert u.threads == s.threads[t := u.threads[t]];
  }

  /** A goroutine goes on with its call, or logs it and takes the next. */
  ghost predicate Onward(th: Thread, v: Thread) {
    th.todo != [] &&
    if th.phase.Leaving? then
      && v.todo == th.todo[1..] && v.phase.Idle? && |v.log| == |th.log| + 1
      && v.log[..|th.log|] == th.log && v.log[|th.log|].request == th.todo[0]
    else v == th.(phase := v.phase) && Rank(v.phase) < Rank(th.phase)
  }

  lemma {:induction false} LeavesOnward(w: World, s: State, t: nat, result: Answer, stored: bool)
    requires t < |s.threads| && Advance(w, s, t, result, stored).Some? && s.threads[t].phase.Leaving?
    ensures var u := Advance(w, s, t, result, stored).value;
            t < |u.threads| && Onward(s.threads[t], u.threads[t])
  {
    hide MemoKey, Digest;
    var th := s.threads[t];
    assert forall c: Call :: (th.log + [c])[..|th.log|] == th.log;
  }

  lemma {:induction false} OutsideOnward(w: World, s: State, t: nat, result: Answer, stored: bool)
    requires t < |s.threads| && Advance(w, s, t, result, stored).Some? && !s.threads[t].phase.Leaving?
    requires !InOnce(s.threads[t].phase)
    ensures var u := Advance(w, s, t, result, stored).value;
            t < |u.threads| && Onward(s.threads[t], u.threads[t])
  {
    hide MemoKey, Digest;
  }

  lemma {:induction false} InsideOnward(w: World, s: State, t: nat, result: Answer, stored: bool)
    requires t < |s.threads| && Advance(w, s, t, result, stored).Some? && InOnce(s.threads[t].phase)
    ensures var u := Advance(w, s, t, result, stored).value;
            t < |u.threads| && Onward(s.threads[t], u.threads[t])
  {
    hide MemoKey, Digest;
  }

  lemma {:induction false} MovesOnward(w: World, s: State, t: nat, result: Answer, stored: bool)
    requires t < |s.threads| && Advance(w, s, t, result, stored).Some?
    ensures var u := Advance(w, s, t, result, stored).value;
            t < |u.threads| && Onward(s.threads[t], u.threads[t])
  {
    hide Advance, Onward;
    if s.threads[t].phase.Leaving? {
      LeavesOnward(w, s, t, result, stored);
    } else if InOnce(s.threads[t].phase) {
      InsideOnward(w, s, t, result, stored);
    } else {
      OutsideOnward(w, s, t, result, stored);
    }
  }

  lemma {:induction false} RankDrops(th: Thread, v: Thread)
    requires Onward(th, v)
    ensures Left(v) < Left(th)
  {
  }

  /** Every move brings the end nearer, so with NeverStuck every call returns. */
  lemma {:induction false} MoveProgresses(w: World, s: State, t: nat, result: Answer, stored: bool)
    requires t < |s.threads| && Advance(w, s, t, result, stored).Some?
    ensures var u := Advance(w, s, t, result, stored).value;
            |u.threads| == |s.threads| && Work(u.threads) < Work(s.threads)
  {
    hide *;
    MoveOne(w, s, t, result, stored);
    MovesOnward(w, s, t, result, stored);
    RankDrops(s.threads[t], Advance(w, s, t, result, stored).value.threads[t]);
    WorkDrops(s.threads, t, Advance(w, s, t, result, stored).value.threads[t]);
  }

  // --- What the calls return ---

  /** A conversion under way is at a stage its request leads to. */
  ghost predicate OnCourse(w: World, th: Thread) {
    InOnce(th.phase) ==>
      && th.todo != []
      && (match th.phase
          case Loading(_, i) => w.keyOf(th.todo[0]) == Cacheable(i)
          case Transforming(_, None) => w.keyOf(th.todo[0]).Uncacheable?
          case Transforming(_, Some(i)) => w.keyOf(th.todo[0]) == Cacheable(i)
          case Storing(_, i, o) => w.keyOf(th.todo[0]) == Cacheable(i) && w.transform(th.todo[0]) == Ok(o)
          case _ => true)
  }

  predicate Plain(w: World, th: Thread) {
    && (forall i :: 0 <= i < |th.todo| ==> PlainBut(th.todo[i], w.open))
    && (forall i :: 0 <= i < |th.log| ==> PlainBut(th.log[i].request, w.open))
  }

  /** Every answer in the memo is the direct one for its key. */
  ghost predicate Answers(w: World, s: State) {
    forall r: Request {:trigger MemoKey(r)} :: PlainBut(r, w.open) && MemoKey(r) in s.entries ==>
      s.entries[MemoKey(r)] < |s.onces|
      && (s.onces[s.entries[MemoKey(r)]].Done? ==> s.onces[s.entries[MemoKey(r)]].answer == Direct(w, r))
  }

  ghost predicate Truthful(w: World, s: State) {
    && Sound(w, s.disk) && Answers(w, s)
    && forall t :: 0 <= t < |s.threads| ==> OnCourse(w, s.threads[t]) && Plain(w, s.threads[t])
  }

  /** A transform returns what it returns, and other processes store only sound entries. */
  ghost predicate HonestLabel(w: World, s: State, l: Label) {
    match l
    case Outside(disk) => Sound(w, disk)
    case Move(t, result, _) =>
      t < |s.threads| && s.threads[t].todo != [] && s.threads[t].phase.Transforming? ==> result == w.transform(s.threads[t].todo[0])
  }

  /** A move that settles no entry keeps the answers true. */
  lemma {:induction false} PhaseTrue(w: World, s: State, t: nat, th: Thread, u: State)
    requires Truthful(w, s) && t < |s.threads| && OnCourse(w, th) && Plain(w, th)
    requires u.threads == s.threads[t := th] && Sound(w, u.disk)
    requires forall k :: k in u.entries ==> u.entries[k] < |u.onces|
    requires forall k :: k in u.entries && u.onces[u.entries[k]].Done? ==>
               k in s.entries && s.entries[k] < |s.onces| && s.onces[s.entries[k]] == u.onces[u.entries[k]]
    ensures Truthful(w, u)
  {
    hide Direct, Sound, OnCourse, Plain;
  }

  /** A conversion that ends with its request's direct answer keeps the answers true. */
  lemma {:induction false} FinishTrue(w: World, s: State, t: nat, a: Answer, disk: Disk)
    requires !w.open.BothParts? && Consistent(s) && Truthful(w, s) && t < |s.threads| && s.threads[t].todo != [] && InOnce(s.threads[t].phase)
    requires s.threads[t].phase.e < |s.onces| && a == Direct(w, s.threads[t].todo[0]) && Sound(w, disk)
    ensures Truthful(w, Finish(s, t, s.threads[t].phase.e, a).(disk := disk))
  {
    var e, q := s.threads[t].phase.e, s.threads[t].todo[0];
    var u := Finish(s, t, e, a).(disk := disk);
    assert ThreadOk(s, t);
    forall r: Request | PlainBut(r, w.open) && MemoKey(r) in u.entries
      ensures u.entries[MemoKey(r)] < |u.onces|
      ensures u.onces[u.entries[MemoKey(r)]].Done? ==> u.onces[u.entries[MemoKey(r)]].answer == Direct(w, r)
    {
      if u.entries[MemoKey(r)] == e {
        assert MemoKey(r) == MemoKey(q);
        MemoKeyUnique(r, q, w.open);
      }
    }
    hide Direct, Sound;
  }

  /** Outside the once a move settles nothing. */
  lemma {:induction false} SettlesNothing(w: World, s: State, t: nat, result: Answer, stored: bool)
    requires t < |s.threads| && Advance(w, s, t, result, stored).Some? && !InOnce(s.threads[t].phase)
    requires forall k :: k in s.entries ==> s.entries[k] < |s.onces|
    ensures var u := Advance(w, s, t, result, stored).value;
            && u.disk == s.disk
            && forall k :: k in u.entries && u.entries[k] < |u.onces| && u.onces[u.entries[k]].Done? ==>
                 k in s.entries && s.entries[k] < |s.onces| && s.onces[s.entries[k]] == u.onces[u.entries[k]]
  {
    hide MemoKey;
  }

  lemma {:induction false} StaysOnCourse(w: World, s: State, t: nat, result: Answer, stored: bool)
    requires t < |s.threads| && Advance(w, s, t, result, stored).Some? && !InOnce(s.threads[t].phase)
    requires Plain(w, s.threads[t])
    ensures var u := Advance(w, s, t, result, stored).value;
            t < |u.threads| && OnCourse(w, u.threads[t]) && Plain(w, u.threads[t])
  {
    hide MemoKey, PlainBut;
  }

  lemma {:induction false} EntriesInRange(s: State)
    requires Consistent(s)
    ensures forall k :: k in s.entries ==> s.entries[k] < |s.onces|
  {
    forall k | k in s.entries ensures s.entries[k] < |s.onces| {
      assert EntryOk(s, k);
    }
  }

  lemma {:induction false} OutsideOnceTrue(w: World, s: State, t: nat, result: Answer, stored: bool)
    requires Consistent(s) && Truthful(w, s) && t < |s.threads|
    requires Advance(w, s, t, result, stored).Some? && !InOnce(s.threads[t].phase)
    ensures Truthful(w, Advance(w, s, t, result, stored).value)
  {
    hide *;
    var u := Advance(w, s, t, result, stored).value;
    OutsideOnceKeeps(w, s, t, result, stored);
    EntriesInRange(s);
    EntriesInRange(u);
    TruthfulThread(w, s, t);
    MoveOne(w, s, t, result, stored);
    SettlesNothing(w, s, t, result, stored);
    StaysOnCourse(w, s, t, result, stored);
    PhaseTrue(w, s, t, u.threads[t], u);
  }

  lemma {:induction false} TruthfulThread(w: World, s: State, t: nat)
    requires Truthful(w, s) && t < |s.threads|
    ensures OnCourse(w, s.threads[t]) && Plain(w, s.threads[t]) && Sound(w, s.disk)
  {
  }

  lemma {:induction false} InsideOnceTrue(w: World, s: State, t: nat, result: Answer, stored: bool)
    requires Honest(w) && Consistent(s) && Truthful(w, s) && t < |s.threads|
    requires Advance(w, s, t, result, stored).Some? && InOnce(s.threads[t].phase)
    requires HonestLabel(w, s, Move(t, result, stored))
    ensures Truthful(w, Advance(w, s, t, result, stored).value)
  {
    var u := Advance(w, s, t, result, stored).value;
    assert ThreadOk(s, t);
    TruthfulThread(w, s, t);
    var th := s.threads[t];
    var r := th.todo[0];
    match th.phase {
      case Keying(e) =>
        match w.keyOf(r) {
          case KeyFailed(m) => FinishTrue(w, s, t, Err(m), s.disk);
          case Uncacheable => StageTrue(w, s, t, Transforming(e, None));
          case Cacheable(inputs) => StageTrue(w, s, t, Loading(e, inputs));
        }
      case Loading(e, inputs) =>
        var found := Load(w, s.disk, Digest(w, inputs));
        if found.Some? {
          FinishTrue(w, s, t, Ok(found.value), s.disk);
        } else {
          StageTrue(w, s, t, Transforming(e, Some(inputs)));
        }
      case Transforming(e, keep) =>
        if result.Ok? && keep.Some? {
          StageTrue(w, s, t, Storing(e, keep.value, result.outcome));
        } else {
          FinishTrue(w, s, t, result, s.disk);
        }
      case Storing(e, inputs, o) =>
        assert PlainBut(r, w.open);
        StoreSound(w, s.disk, inputs, o);
        FinishTrue(w, s, t, Ok(o), if stored then Store(w, s.disk, Digest(w, inputs), o) else s.disk);
    }
  }

  lemma {:induction false} StageTrue(w: World, s: State, t: nat, p: Phase)
    requires Consistent(s) && Truthful(w, s) && t < |s.threads|
    requires OnCourse(w, s.threads[t].(phase := p))
    ensures Truthful(w, Enter(s, t, p))
  {
    TruthfulThread(w, s, t);
    EntriesInRange(s);
    hide Direct, Sound, OnCourse, Consistent, Truthful;
    PhaseTrue(w, s, t, s.threads[t].(phase := p), Enter(s, t, p));
  }

  /** Every honest step keeps the memo's answers direct and the disk sound. */
  lemma {:induction false} StepTrue(w: World, s: State, l: Label)
    requires Honest(w) && Consistent(s) && Truthful(w, s) && HonestLabel(w, s, l) && Apply(w, s, l).Some?
    ensures Truthful(w, Apply(w, s, l).value)
  {
    hide Consistent, Advance, Honest, Sound;
    match l {
      case Outside(disk) =>
      case Move(t, result, stored) =>
        if InOnce(s.threads[t].phase) {
          InsideOnceTrue(w, s, t, result, stored);
        } else {
          OutsideOnceTrue(w, s, t, result, stored);
        }
    }
  }

  // --- Whole runs ---

  /** Each goroutine has made its program's first calls and has the rest to make. */
  ghost predicate Follows(programs: seq<seq<Request>>, s: State) {
    && |s.threads| == |programs|
    && forall t :: 0 <= t < |programs| ==> FollowsOne(programs[t], s.threads[t])
  }

  predicate FollowsOne(program: seq<Request>, th: Thread) {
    && |th.log| <= |program| && th.todo == program[|th.log|..]
    && forall i :: 0 <= i < |th.log| ==> th.log[i].request == program[i]
  }

  lemma {:induction false} ThreadFollows(th: Thread, v: Thread, program: seq<Request>)
    requires FollowsOne(program, th) && Onward(th, v)
    ensures FollowsOne(program, v)
  {
    if th.phase.Leaving? {
      forall i | 0 <= i < |v.log| ensures v.log[i].request == program[i] {
        assert i < |th.log| ==> v.log[i] == v.log[..|th.log|][i];
      }
    }
  }

  lemma {:induction false} StepFollows(w: World, s: State, l: Label, programs: seq<seq<Request>>)
    requires Follows(programs, s) && Apply(w, s, l).Some?
    ensures Follows(programs, Apply(w, s, l).value)
  {
    hide Advance, FollowsOne;
    match l {
      case Outside(_) =>
      case Move(t, result, stored) =>
        MoveOne(w, s, t, result, stored);
        MovesOnward(w, s, t, result, stored);
        ThreadFollows(s.threads[t], Advance(w, s, t, result, stored).value.threads[t], programs[t]);
    }
  }

  ghost predicate HonestRun(w: World, s: State, labels: seq<Label>)
    decreases |labels|
  {
    labels == [] ||
    (HonestLabel(w, s, labels[0]) && (Apply(w, s, labels[0]).Some? ==> HonestRun(w, Apply(w, s, labels[0]).value, labels[1..])))
  }

  ghost predicate Healthy(w: World, programs: seq<seq<Request>>, s: State) {
    Consistent(s) && Truthful(w, s) && Follows(programs, s)
  }

  lemma {:induction false} RunHealthy(w: World, s: State, labels: seq<Label>, programs: seq<seq<Request>>)
    requires Honest(w) && Healthy(w, programs, s) && HonestRun(w, s, labels) && Run(w, s, labels).Some?
    ensures Healthy(w, programs, Run(w, s, labels).value)
    decreases |labels|
  {
    if labels != [] {
      StepKeeps(w, s, labels[0]);
      StepTrue(w, s, labels[0]);
      StepFollows(w, s, labels[0], programs);
      hide Consistent, Truthful, Follows, Apply, Honest, HonestLabel;
      RunHealthy(w, Apply(w, s, labels[0]).value, labels[1..], programs);
    }
  }

  predicate PlainProgram(w: World, program: seq<Request>) {
    forall i :: 0 <= i < |program| ==> PlainBut(program[i], w.open)
  }

  lemma {:induction false} StartHealthy(w: World, programs: seq<seq<Request>>, disk: Disk)
    requires Sound(w, disk) && forall t :: 0 <= t < |programs| ==> PlainProgram(w, programs[t])
    ensures Healthy(w, programs, Start(programs, disk))
  {
    StartConsistent(programs, disk);
    hide Sound, PlainBut;
  }

  /** What a goroutine has been told is what converting directly, with no memo or cache, would tell it. */
  lemma {:induction false} HealthyLogs(w: World, programs: seq<seq<Request>>, s: State, t: nat)
    requires Healthy(w, programs, s) && t < |programs|
    ensures t < |s.threads| && |s.threads[t].log| <= |programs[t]|
    ensures s.threads[t].log == seq(|s.threads[t].log|, i requires 0 <= i < |s.threads[t].log| =>
              Call(programs[t][i], Direct(w, programs[t][i])))
  {
    var th := s.threads[t];
    assert FollowsOne(programs[t], th) && ThreadOk(s, t) && Plain(w, th);
    hide Direct, PlainBut, MemoKey, Sound, Consistent, FollowsOne;
    forall i | 0 <= i < |th.log| ensures th.log[i].answer == Direct(w, th.log[i].request) {
      assert Logged(s, th.log[i]);
    }
    FollowsRequests(programs[t], th);
  }

  lemma {:induction false} FollowsRequests(program: seq<Request>, th: Thread)
    requires FollowsOne(program, th)
    ensures |th.log| <= |program| && forall i :: 0 <= i < |th.log| ==> th.log[i].request == program[i]
  {
  }

  /** In every honest run every call returns its direct answer, in program order, and the disk stays sound. */
  lemma {:induction false} EveryRunDirect(w: World, programs: seq<seq<Request>>, disk: Disk, labels: seq<Label>, t: nat)
    requires Honest(w) && Sound(w, disk) && (forall u :: 0 <= u < |programs| ==> PlainProgram(w, programs[u])) && t < |programs|
    requires HonestRun(w, Start(programs, disk), labels) && Run(w, Start(programs, disk), labels).Some?
    ensures var s := Run(w, Start(programs, disk), labels).value;
            && Sound(w, s.disk) && t < |s.threads| && |s.threads[t].log| <= |programs[t]|
            && s.threads[t].log == seq(|s.threads[t].log|, i requires 0 <= i < |s.threads[t].log| =>
                 Call(programs[t][i], Direct(w, programs[t][i])))
  {
    StartHealthy(w, programs, disk);
    RunHealthy(w, Start(programs, disk), labels, programs);
    HealthyLogs(w, programs, Run(w, Start(programs, disk), labels).value, t);
    hide Consistent, Follows, Run, HonestRun, Sound, Honest, Direct;
  }

  // --- What the disk may change ---

  /** One label taken over and over, honestly each time, leads from one state to another. */
  ghost predicate Steps(w: World, s: State, n: nat, l: Label, u: State) {
    var labels := seq(n, i => l);
    HonestRun(w, s, labels) && Run(w, s, labels) == Some(u)
  }

  lemma NoStep(w: World, s: State, l: Label)
    ensures Steps(w, s, 0, l, s)
  {
  }

  lemma OneStep(w: World, s: State, l: Label, t: State, n: nat, u: State)
    requires HonestLabel(w, s, l) && Apply(w, s, l) == Some(t) && Steps(w, t, n, l, u)
    ensures Steps(w, s, n + 1, l, u)
  {
    hide Apply, HonestLabel;
    var labels, rest := seq(n + 1, i => l), seq(n, i => l);
    assert labels[0] == l && labels[1..] == rest;
  }

  /** A state of one goroutine in its one call. */
  function Alone(lock: Option<nat>, entries: map<string, nat>, onces: seq<Once>, r: Request, phase: Phase,
                 disk: Disk, begun: multiset<string>): State {
    State(lock, entries, onces, [Thread([r], phase, [])], disk, begun)
  }

  function Converting(r: Request, once: Once, phase: Phase, disk: Disk): State {
    Alone(None, map[MemoKey(r) := 0], [once], r, phase, disk, multiset{MemoKey(r)})
  }

  function Told(r: Request, a: Answer, disk: Disk): State {
    State(None, map[MemoKey(r) := 0], [Done(a)], [Thread([], Idle, [Call(r, a)])], disk, multiset{MemoKey(r)})
  }

  lemma OnlyOne<T>(x: T, y: T)
    ensures [x][0 := y] == [y]
  {
  }

  /** Moving the one goroutine on. */
  lemma AloneEnters(s: State, r: Request, a: Phase, b: Phase)
    requires s.threads == [Thread([r], a, [])]
    ensures Enter(s, 0, b) == s.(threads := [Thread([r], b, [])])
  {
    OnlyOne(Thread([r], a, []), Thread([r], b, []));
  }

  lemma AloneFinishes(s: State, r: Request, a: Phase, once: Once, answer: Answer)
    requires s.threads == [Thread([r], a, [])] && s.onces == [once]
    ensures Finish(s, 0, 0, answer) == s.(threads := [Thread([r], Leaving(0), [])], onces := [Done(answer)])
  {
    AloneEnters(s, r, a, Leaving(0));
    OnlyOne(once, Done(answer));
  }

  /** The call's way to the disk. */
  lemma ToLoading(w: World, r: Request, i: Inputs, disk: Disk, n: nat, u: State)
    requires w.keyOf(r) == Cacheable(i)
    requires Steps(w, Converting(r, Busy(0), Loading(0, i), disk), n, Move(0, w.transform(r), true), u)
    ensures Steps(w, Start([[r]], disk), n + 5, Move(0, w.transform(r), true), u)
  {
    var l, key := Move(0, w.transform(r), true), MemoKey(r);
    hide MemoKey, Steps;
    var t0 := Start([[r]], disk);
    var t1 := Alone(Some(0), map[], [], r, Holding, disk, multiset{});
    var t2 := Alone(Some(0), map[key := 0], [Fresh], r, Found(0), disk, multiset{});
    var t3 := Alone(None, map[key := 0], [Fresh], r, Entered(0), disk, multiset{});
    assert [] + [Fresh] == [Fresh] && multiset{} + multiset{key} == multiset{key};
    assert t0 == Alone(None, map[], [], r, Idle, disk, multiset{});
    AloneEnters(t0, r, Idle, Holding);
    AloneEnters(t1, r, Holding, Found(0));
    AloneEnters(t2, r, Found(0), Entered(0));
    AloneEnters(t3, r, Entered(0), Keying(0));
    OnlyOne(Fresh, Busy(0));
    AloneEnters(Converting(r, Busy(0), Keying(0), disk), r, Keying(0), Loading(0, i));
    hide Enter;
    OneStep(w, Converting(r, Busy(0), Keying(0), disk), l, Converting(r, Busy(0), Loading(0, i), disk), n, u);
    OneStep(w, t3, l, Converting(r, Busy(0), Keying(0), disk), n + 1, u);
    OneStep(w, t2, l, t3, n + 2, u);
    OneStep(w, t1, l, t2, n + 3, u);
    OneStep(w, t0, l, t1, n + 4, u);
  }

  lemma ToTold(w: World, r: Request, a: Answer, disk: Disk)
    ensures Steps(w, Converting(r, Done(a), Leaving(0), disk), 1, Move(0, w.transform(r), true), Told(r, a, disk))
  {
    var l := Move(0, w.transform(r), true);
    hide MemoKey, Steps;
    assert [r][1..] == [] && [] + [Call(r, a)] == [Call(r, a)];
    OnlyOne(Thread([r], Leaving(0), []), Thread([], Idle, [Call(r, a)]));
    NoStep(w, Told(r, a, disk), l);
    OneStep(w, Converting(r, Done(a), Leaving(0), disk), l, Told(r, a, disk), 0, Told(r, a, disk));
  }

  /** A first build finds nothing on an empty disk, converts and stores. */
  lemma FirstBuild(w: World, r: Request, i: Inputs, o: Outcome)
    requires w.keyOf(r) == Cacheable(i) && w.transform(r) == Ok(o)
    ensures Steps(w, Start([[r]], map[]), 9, Move(0, Ok(o), true), Told(r, Ok(o), Store(w, map[], Digest(w, i), o)))
  {
    var l, disk := Move(0, Ok(o), true), Store(w, map[], Digest(w, i), o);
    var u := Told(r, Ok(o), disk);
    ToTold(w, r, Ok(o), disk);
    AloneEnters(Converting(r, Busy(0), Loading(0, i), map[]), r, Loading(0, i), Transforming(0, Some(i)));
    AloneEnters(Converting(r, Busy(0), Transforming(0, Some(i)), map[]), r, Transforming(0, Some(i)), Storing(0, i, o));
    AloneFinishes(Converting(r, Busy(0), Storing(0, i, o), map[]), r, Storing(0, i, o), Busy(0), Ok(o));
    hide MemoKey, Steps, Store, Told, Enter, Finish;
    OneStep(w, Converting(r, Busy(0), Storing(0, i, o), map[]), l, Converting(r, Done(Ok(o)), Leaving(0), disk), 1, u);
    OneStep(w, Converting(r, Busy(0), Transforming(0, Some(i)), map[]), l, Converting(r, Busy(0), Storing(0, i, o), map[]), 2, u);
    OneStep(w, Converting(r, Busy(0), Loading(0, i), map[]), l, Converting(r, Busy(0), Transforming(0, Some(i)), map[]), 3, u);
    ToLoading(w, r, i, map[], 4, u);
  }

  /** A build that finds an entry is told what it reads. */
  lemma SecondBuild(w: World, r: Request, i: Inputs, disk: Disk, p: Outcome)
    requires w.keyOf(r) == Cacheable(i) && Load(w, disk, Digest(w, i)) == Some(p)
    ensures Steps(w, Start([[r]], disk), 7, Move(0, w.transform(r), true), Told(r, Ok(p), disk))
  {
    var l, u := Move(0, w.transform(r), true), Told(r, Ok(p), disk);
    ToTold(w, r, Ok(p), disk);
    AloneFinishes(Converting(r, Busy(0), Loading(0, i), disk), r, Loading(0, i), Busy(0), Ok(p));
    hide MemoKey, Steps, Load, Told, Finish;
    OneStep(w, Converting(r, Busy(0), Loading(0, i), disk), l, Converting(r, Done(Ok(p)), Leaving(0), disk), 1, u);
    ToLoading(w, r, i, disk, 2, u);
  }

  /** All a build's goroutines have been told is the direct answer to the one request. */
  ghost predicate AllDirect(w: World, s: State, r: Request) {
    forall t, i :: 0 <= t < |s.threads| && 0 <= i < |s.threads[t].log| ==> s.threads[t].log[i] == Call(r, Direct(w, r))
  }

  /** Of two builds that make one request, the second on the disk the first leaves, the second is told the direct answer. */
  ghost predicate BuildsDirect(w: World, r: Request) {
    forall a: seq<Label>, b: seq<Label> :: TwoBuilds(w, r, a, b) ==>
      AllDirect(w, Run(w, Start([[r]], Run(w, Start([[r]], map[]), a).value.disk), b).value, r)
  }

  ghost predicate TwoBuilds(w: World, r: Request, a: seq<Label>, b: seq<Label>) {
    && HonestRun(w, Start([[r]], map[]), a) && Run(w, Start([[r]], map[]), a).Some?
    && var disk := Run(w, Start([[r]], map[]), a).value.disk;
       HonestRun(w, Start([[r]], disk), b) && Run(w, Start([[r]], disk), b).Some?
  }

  /** An outcome that does not survive the disk changes what the second build is told. */
  lemma ChangedOnDisk(w: World, r: Request)
    requires w.keyOf(r).Cacheable? && w.transform(r).Ok? && !Survives(w, w.transform(r).outcome)
    ensures !BuildsDirect(w, r)
  {
    var i, o := w.keyOf(r).inputs, w.transform(r).outcome;
    var disk := Store(w, map[], Digest(w, i), o);
    var p := Load(w, disk, Digest(w, i)).value;
    FirstBuild(w, r, i, o);
    SecondBuild(w, r, i, disk, p);
    var a, b := seq(9, _ => Move(0, Ok(o), true)), seq(7, _ => Move(0, w.transform(r), true));
    var u := Told(r, Ok(p), disk);
    hide Run, HonestRun, MemoKey, Store, Digest;
    assert TwoBuilds(w, r, a, b);
    assert u.threads[0].log[0] == Call(r, Ok(p));
  }

  lemma {:induction false} HonestBuild(w: World, r: Request, disk: Disk, labels: seq<Label>)
    requires Honest(w) && Sound(w, disk) && PlainBut(r, w.open)
    requires HonestRun(w, Start([[r]], disk), labels) && Run(w, Start([[r]], disk), labels).Some?
    ensures var s := Run(w, Start([[r]], disk), labels).value; Sound(w, s.disk) && AllDirect(w, s, r)
  {
    hide Direct, Sound, Honest, Run, HonestRun, PlainBut;
    var s := Run(w, Start([[r]], disk), labels).value;
    assert PlainProgram(w, [r]);
    StartHealthy(w, [[r]], disk);
    RunHealthy(w, Start([[r]], disk), labels, [[r]]);
    HealthyLogs(w, [[r]], s, 0);
    assert |s.threads| == 1;
  }

  /** The disk changes nothing for any request exactly when every outcome survives it. */
  lemma {:induction false} SurvivesExactly(w: World)
    requires HonestKeys(w)
    ensures OutcomesSurvive(w) <==> forall r: Request :: PlainBut(r, w.open) ==> BuildsDirect(w, r)
  {
    if OutcomesSurvive(w) {
      forall r: Request | PlainBut(r, w.open) ensures BuildsDirect(w, r) {
        forall a: seq<Label>, b: seq<Label> | TwoBuilds(w, r, a, b)
          ensures AllDirect(w, Run(w, Start([[r]], Run(w, Start([[r]], map[]), a).value.disk), b).value, r)
        {
          EmptySound(w);
          hide Sound, Run, HonestRun, AllDirect, PlainBut, HonestKeys, OutcomesSurvive;
          HonestBuild(w, r, map[], a);
          HonestBuild(w, r, Run(w, Start([[r]], map[]), a).value.disk, b);
        }
      }
    } else {
      var r: Request :| PlainBut(r, w.open) && w.keyOf(r).Cacheable? && w.transform(r).Ok? && !Survives(w, w.transform(r).outcome);
      ChangedOnDisk(w, r);
    }
  }

  lemma EmptySound(w: World)
    ensures Sound(w, map[])
  {
  }

  // --- Converting ahead ---

  /** The compile starts once the workers are done, on the memo they leave. */
  function Handover(s: State, compile: seq<Request>): State {
    s.(threads := [Thread(compile, Idle, [])], lock := None)
  }

  predicate Finished(s: State) {
    forall t :: 0 <= t < |s.threads| ==> s.threads[t].todo == []
  }

  lemma {:induction false} HandoverHealthy(w: World, programs: seq<seq<Request>>, s: State, compile: seq<Request>)
    requires Healthy(w, programs, s) && Finished(s) && PlainProgram(w, compile)
    ensures Healthy(w, [compile], Handover(s, compile))
  {
    var u := Handover(s, compile);
    forall t | 0 <= t < |s.threads| ensures s.threads[t].phase.Idle? {
      assert ThreadOk(s, t);
    }
    forall k | k in u.entries ensures EntryOk(u, k) {
      assert EntryOk(s, k);
    }
    assert ThreadOk(u, 0);
    hide Direct, Sound, MemoKey, PlainBut;
    assert Answers(w, u) by {
      assert Answers(w, s);
    }
  }

  /** The calls are those a compile makes that asks by what it was told before, to the point where it stops. */
  ghost predicate Obeys(ask: seq<Call> -> Option<Request>, log: seq<Call>) {
    (forall i :: 0 <= i < |log| ==> ask(log[..i]) == Some(log[i].request)) && ask(log) == None
  }

  /** Told the same, a compile asks the same. */
  lemma {:induction false} SameCalls(ask: seq<Call> -> Option<Request>, a: seq<Call>, b: seq<Call>, w: World, n: nat)
    requires Obeys(ask, a) && Obeys(ask, b) && n <= |a|
    requires forall i :: 0 <= i < |a| ==> a[i].answer == Direct(w, a[i].request)
    requires forall i :: 0 <= i < |b| ==> b[i].answer == Direct(w, b[i].request)
    ensures n <= |b| && a[..n] == b[..n]
    decreases n
  {
    hide Direct;
    if n > 0 {
      SameCalls(ask, a, b, w, n - 1);
      assert ask(a[..n - 1]) == Some(a[n - 1].request);
      assert b[..|b|] == b;
      assert a[n - 1] == b[n - 1];
      assert a[..n] == a[..n - 1] + [a[n - 1]] && b[..n] == b[..n - 1] + [b[n - 1]];
    }
  }

  /** The calls of a compile alone in a healthy run, each with its direct answer. */
  lemma {:induction false} CompileTold(w: World, compile: seq<Request>, s: State)
    requires Healthy(w, [compile], s)
    ensures |s.threads| == 1
    ensures forall i :: 0 <= i < |s.threads[0].log| ==> s.threads[0].log[i].answer == Direct(w, s.threads[0].log[i].request)
  {
    HealthyLogs(w, [compile], s, 0);
    hide Direct, Consistent, Truthful;
  }

  /**
   * Whatever was converted ahead, by however many workers and whatever it answered, the compile
   * makes the same calls and is told the same as on an empty memo. It may ask by what it was
   * told, and stop at its first error.
   */
  lemma {:induction false} PrewarmInvisible(w: World, workers: seq<seq<Request>>, disk: Disk, ahead: seq<Label>,
                                            ask: seq<Call> -> Option<Request>, compile: seq<Request>, after: seq<Label>,
                                            disk2: Disk, compile2: seq<Request>, alone: seq<Label>)
    requires Honest(w) && Sound(w, disk) && Sound(w, disk2)
    requires PlainProgram(w, compile) && PlainProgram(w, compile2) && forall u :: 0 <= u < |workers| ==> PlainProgram(w, workers[u])
    requires HonestRun(w, Start(workers, disk), ahead) && Run(w, Start(workers, disk), ahead).Some?
    requires var warm := Run(w, Start(workers, disk), ahead).value;
             && Finished(warm) && HonestRun(w, Handover(warm, compile), after) && Run(w, Handover(warm, compile), after).Some?
             && var s := Run(w, Handover(warm, compile), after).value;
                forall t :: 0 <= t < |s.threads| ==> Obeys(ask, s.threads[t].log)
    requires HonestRun(w, Start([compile2], disk2), alone) && Run(w, Start([compile2], disk2), alone).Some?
    requires var u := Run(w, Start([compile2], disk2), alone).value;
             forall t :: 0 <= t < |u.threads| ==> Obeys(ask, u.threads[t].log)
    ensures var warm := Run(w, Start(workers, disk), ahead).value;
            var s, u := Run(w, Handover(warm, compile), after).value, Run(w, Start([compile2], disk2), alone).value;
            |s.threads| == 1 && |u.threads| == 1 && s.threads[0].log == u.threads[0].log
  {
    hide Run, HonestRun, Sound, Honest, Direct, Consistent, Truthful, Healthy, PlainProgram, Obeys;
    StartHealthy(w, workers, disk);
    RunHealthy(w, Start(workers, disk), ahead, workers);
    var warm := Run(w, Start(workers, disk), ahead).value;
    HandoverHealthy(w, workers, warm, compile);
    RunHealthy(w, Handover(warm, compile), after, [compile]);
    StartHealthy(w, [compile2], disk2);
    RunHealthy(w, Start([compile2], disk2), alone, [compile2]);
    var s, u := Run(w, Handover(warm, compile), after).value, Run(w, Start([compile2], disk2), alone).value;
    CompileTold(w, compile, s);
    CompileTold(w, compile2, u);
    var a, b := s.threads[0].log, u.threads[0].log;
    SameCalls(ask, a, b, w, |a|);
    SameCalls(ask, b, a, w, |b|);
    assert a[..|a|] == a && b[..|b|] == b;
  }

  predicate Claimed(claims: seq<Request>, key: string) {
    exists i :: 0 <= i < |claims| && MemoKey(claims[i]) == key
  }

  lemma ClaimedMore(claims: seq<Request>, r: Request)
    ensures Claimed(claims + [r], MemoKey(r)) && forall k :: Claimed(claims, k) ==> Claimed(claims + [r], k)
  {
    hide MemoKey;
    var more := claims + [r];
    assert more[|claims|] == r;
    forall k | Claimed(claims, k) ensures Claimed(more, k) {
      var i :| 0 <= i < |claims| && MemoKey(claims[i]) == k;
      assert more[i] == claims[i];
    }
  }

  /** The queue of claims: each hook and value once, where it is first found, in that order. */
  method Claims(found: seq<Request>) returns (claims: seq<Request>, ghost at: seq<nat>)
    ensures |at| == |claims| && forall i, j :: 0 <= i < j < |at| ==> at[i] < at[j]
    ensures forall i :: 0 <= i < |at| ==> at[i] < |found| && claims[i] == found[at[i]]
    ensures forall i, j :: 0 <= i < |at| && 0 <= j < at[i] ==> MemoKey(found[j]) != MemoKey(claims[i])
    ensures forall i :: 0 <= i < |found| ==> Claimed(claims, MemoKey(found[i]))
  {
    hide MemoKey, Claimed;
    claims, at := [], [];
    var seen: set<string> := {};
    for i := 0 to |found|
      invariant forall k :: k in seen ==> Claimed(claims, k)
      invariant |at| == |claims| && forall i, j :: 0 <= i < j < |at| ==> at[i] < at[j]
      invariant forall j :: 0 <= j < |at| ==> at[j] < i && claims[j] == found[at[j]]
      invariant forall k, j :: 0 <= k < |at| && 0 <= j < at[k] ==> MemoKey(found[j]) != MemoKey(claims[k])
      invariant forall j :: 0 <= j < i ==> MemoKey(found[j]) in seen
    {
      var key := MemoKey(found[i]);
      if key !in seen {
        seen := seen + {key};
        ghost var before := claims;
        claims, at := claims + [found[i]], at + [i];
        ClaimedMore(before, found[i]);
      }
    }
  }

  // --- Building a cache key ---

  /** What a hook's CacheKey answers; its sources are taken in sorted order. */
  datatype Declaration = NoCacheKey | DeclareFailed(message: string) | Declares(params: string, sources: seq<string>)

  /** The sources with their content hashes, unless one cannot be read. */
  function ReadAll(sources: seq<string>, files: map<string, string>): Option<seq<Source>> {
    if sources == [] then Some([])
    else
      var last := |sources| - 1;
      match ReadAll(sources[..last], files)
      case None => None
      case Some(before) =>
        if sources[last] in files then Some(before + [Source(sources[last], files[sources[last]])]) else None
  }

  function KeyOf(r: Request, d: Declaration, dir: string, files: map<string, string>): Keyed {
    match d
    case NoCacheKey => Uncacheable
    case DeclareFailed(m) => KeyFailed(m)
    case Declares(params, sources) =>
      if dir == "" then Uncacheable
      else match ReadAll(sources, files)
        case None => Uncacheable
        case Some(read) => Cacheable(Inputs(r.hook, r.value, params, read))
  }

  lemma {:induction false} ReadAllExactly(sources: seq<string>, files: map<string, string>)
    ensures ReadAll(sources, files).Some? <==> forall i :: 0 <= i < |sources| ==> sources[i] in files
    ensures ReadAll(sources, files).Some? ==>
              && |ReadAll(sources, files).value| == |sources|
              && forall i :: 0 <= i < |sources| ==>
                   ReadAll(sources, files).value[i].path == sources[i] && ReadAll(sources, files).value[i].hash == files[sources[i]]
  {
    if sources != [] {
      ReadAllExactly(sources[..|sources| - 1], files);
      assert forall i :: 0 <= i < |sources| - 1 ==> sources[..|sources| - 1][i] == sources[i];
    }
  }

  /** A conversion can be cached exactly when its hook declares a key, there is a directory and every source can be read. */
  lemma KeyOfExactly(r: Request, d: Declaration, dir: string, files: map<string, string>)
    ensures var k := KeyOf(r, d, dir, files);
            && (k.Cacheable? <==> d.Declares? && dir != "" && forall i :: 0 <= i < |d.sources| ==> d.sources[i] in files)
            && (k.KeyFailed? <==> d.DeclareFailed?) && (k.KeyFailed? ==> k.message == d.message)
    ensures var k := KeyOf(r, d, dir, files);
            k.Cacheable? ==>
              && k.inputs.hook == r.hook && k.inputs.value == r.value && k.inputs.params == d.params
              && |k.inputs.sources| == |d.sources|
              && forall i :: 0 <= i < |d.sources| ==>
                   k.inputs.sources[i].path == d.sources[i] && k.inputs.sources[i].hash == files[d.sources[i]]
  {
    if d.Declares? {
      ReadAllExactly(d.sources, files);
    }
  }

  /** The texts a key is made of hold no NUL. */
  predicate PlainKey(r: Request, d: Declaration, files: map<string, string>) {
    && NulFree(r.hook) && NulFree(r.value)
    && (d.Declares? ==>
          && NulFree(d.params)
          && forall i :: 0 <= i < |d.sources| && d.sources[i] in files ==> NulFree(d.sources[i]) && NulFree(files[d.sources[i]]))
  }

  /**
   * Two conversions share a disk entry exactly when they are one hook's of one value, with the same
   * parameters and the same sources of the same contents.
   */
  lemma DigestsShared(w: World, r: Request, d: Declaration, files: map<string, string>,
                      q: Request, c: Declaration, others: map<string, string>, dir: string)
    requires forall a: string, b: string :: w.sha(a) == w.sha(b) ==> a == b
    requires PlainKey(r, d, files) && PlainKey(q, c, others)
    requires KeyOf(r, d, dir, files).Cacheable? && KeyOf(q, c, dir, others).Cacheable?
    ensures d.Declares? && c.Declares?
    ensures forall i :: 0 <= i < |d.sources| ==> d.sources[i] in files
    ensures forall i :: 0 <= i < |c.sources| ==> c.sources[i] in others
    ensures Digest(w, KeyOf(r, d, dir, files).inputs) == Digest(w, KeyOf(q, c, dir, others).inputs) <==>
            r == q && d.params == c.params && d.sources == c.sources
            && forall i :: 0 <= i < |d.sources| ==> files[d.sources[i]] == others[d.sources[i]]
  {
    KeyOfExactly(r, d, dir, files);
    KeyOfExactly(q, c, dir, others);
    var x, y := KeyOf(r, d, dir, files).inputs, KeyOf(q, c, dir, others).inputs;
    hide KeyOf, NulFree, Preimage;
    PreimageUnique(x, y);
    if r == q && d.params == c.params && d.sources == c.sources
       && forall i :: 0 <= i < |d.sources| ==> files[d.sources[i]] == others[d.sources[i]] {
      assert x.sources == y.sources;
    }
    if x == y {
      assert forall i :: 0 <= i < |d.sources| ==> x.sources[i] == y.sources[i];
      assert d.sources == c.sources;
    }
  }

  /** The world in which hooks declare their keys and the files are as they are. */
  function Declaring(w: World, declare: Request -> Declaration, dir: string, files: map<string, string>): World {
    w.(keyOf := r => KeyOf(r, declare(r), dir, files))
  }

  /**
   * Parameters reach the digest: a build whose hook declares other parameters for the request finds
   * nothing under its key on the disk an earlier build left, and converts anew.
   */
  lemma ParamsReachDisk(w: World, r: Request, i: Inputs, o: Outcome, declare: Request -> Declaration, dir: string,
                        files: map<string, string>)
    requires forall a: string, b: string :: w.sha(a) == w.sha(b) ==> a == b
    requires PlainInputs(i) && PlainKey(r, declare(r), files)
    requires declare(r).Declares? && i.params != declare(r).params && Declaring(w, declare, dir, files).keyOf(r).Cacheable?
    ensures Load(w, Store(w, map[], Digest(w, i), o), Digest(w, Declaring(w, declare, dir, files).keyOf(r).inputs)).None?
  {
    KeyOfExactly(r, declare(r), dir, files);
    hide KeyOf, NulFree, Preimage;
    PreimageUnique(i, Declaring(w, declare, dir, files).keyOf(r).inputs);
  }

  class ConversionCache {
    const dir: string
    var sources: set<string>

    constructor (dir: string)
      ensures this.dir == dir && sources == {}
    {
      this.dir := dir;
      sources := {};
    }

    /** Records every source a key names, cacheable or not, and builds the key. */
    method Key(r: Request, d: Declaration, files: map<string, string>) returns (k: Keyed)
      modifies this
      ensures k == KeyOf(r, d, dir, files)
      ensures forall p :: p in sources <==> p in old(sources) || (d.Declares? && p in d.sources)
    {
      if d.NoCacheKey? {
        return Uncacheable;
      }
      if d.DeclareFailed? {
        return KeyFailed(d.message);
      }
      for i := 0 to |d.sources|
        invariant forall p :: p in sources <==> p in old(sources) || p in d.sources[..i]
      {
        assert d.sources[..i + 1] == d.sources[..i] + [d.sources[i]];
        sources := sources + {d.sources[i]};
      }
      assert d.sources[..|d.sources|] == d.sources;
      if dir == "" {
        return Uncacheable;
      }
      var read: seq<Source> := [];
      for i := 0 to |d.sources|
        invariant ReadAll(d.sources[..i], files) == Some(read)
        invariant forall p :: p in sources <==> p in old(sources) || p in d.sources
      {
        assert d.sources[..i + 1][..i] == d.sources[..i];
        if d.sources[i] !in files {
          UnreadableStays(d.sources, files, i + 1);
          return Uncacheable;
        }
        read := read + [Source(d.sources[i], files[d.sources[i]])];
      }
      k := Cacheable(Inputs(r.hook, r.value, d.params, read));
    }
  }

  lemma {:induction false} UnreadableStays(sources: seq<string>, files: map<string, string>, n: nat)
    requires n <= |sources| && ReadAll(sources[..n], files).None?
    ensures ReadAll(sources, files).None?
    decreases |sources|
  {
    if n < |sources| {
      assert sources[..|sources| - 1][..n] == sources[..n];
      UnreadableStays(sources[..|sources| - 1], files, n);
    } else {
      assert sources[..n] == sources;
    }
  }
}
