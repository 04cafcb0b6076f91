/**
 * Cutting mutations into commits. The cut is greedy over a running total, and greedy is
 * proved optimal: no split into runs a commit can carry uses fewer requests.
 */
module CommitChunks {
  import opened ByteStrings

  // --- Splits and what a commit can carry ---

  function Total<T>(run: seq<T>, size: T -> int): int {
    if run == [] then 0 else Total(run[..|run| - 1], size) + size(run[|run| - 1])
  }

  /** The run's sizes plus the envelope a commit of that many wraps around them stay within the limit. */
  predicate Fits<T>(run: seq<T>, size: T -> int, overhead: nat -> int, limit: int) {
    overhead(|run|) + Total(run, size) <= limit
  }

  /** A commit carries one element whatever its size, and several only when they fit. */
  predicate Allowed<T>(run: seq<T>, size: T -> int, overhead: nat -> int, limit: int) {
    run != [] && (|run| > 1 ==> Fits(run, size, overhead, limit))
  }

  predicate AllAllowed<T>(chunks: seq<seq<T>>, size: T -> int, overhead: nat -> int, limit: int) {
    forall i :: 0 <= i < |chunks| ==> Allowed(chunks[i], size, overhead, limit)
  }

  /** A run that could not have taken the first element of the next one as well. */
  predicate Full<T>(run: seq<T>, next: seq<T>, size: T -> int, overhead: nat -> int, limit: int) {
    next != [] && !Fits(run + [next[0]], size, overhead, limit)
  }

  predicate Maximal<T>(chunks: seq<seq<T>>, size: T -> int, overhead: nat -> int, limit: int) {
    |chunks| <= 1 || (Full(chunks[0], chunks[1], size, overhead, limit) && Maximal(chunks[1..], size, overhead, limit))
  }

  lemma {:induction false} MaximalSnoc<T>(chunks: seq<seq<T>>, run: seq<T>, size: T -> int, overhead: nat -> int, limit: int)
    requires Maximal(chunks, size, overhead, limit)
    requires chunks != [] ==> Full(chunks[|chunks| - 1], run, size, overhead, limit)
    ensures Maximal(chunks + [run], size, overhead, limit)
  {
    if |chunks| > 0 {
      assert (chunks + [run])[1..] == chunks[1..] + [run];
      MaximalSnoc(chunks[1..], run, size, overhead, limit);
    }
  }

  lemma {:induction false} MaximalPrefix<T>(chunks: seq<seq<T>>, n: nat, size: T -> int, overhead: nat -> int, limit: int)
    requires Maximal(chunks, size, overhead, limit) && n <= |chunks|
    ensures Maximal(chunks[..n], size, overhead, limit)
  {
    if n > 1 {
      assert chunks[..n][1..] == chunks[1..][..n - 1];
      MaximalPrefix(chunks[1..], n - 1, size, overhead, limit);
    }
  }

  lemma TotalSnoc<T>(run: seq<T>, x: T, size: T -> int)
    ensures Total(run + [x], size) == Total(run, size) + size(x)
  {
    assert (run + [x])[..|run|] == run;
  }

  // --- The greedy cut ---

  /** The last run takes the next element while it fits, and otherwise a new one begins. */
  function Greedy<T>(items: seq<T>, size: T -> int, overhead: nat -> int, limit: int): seq<seq<T>> {
    if items == [] then []
    else
      Grown(Greedy(items[..|items| - 1], size, overhead, limit), items[|items| - 1], size, overhead, limit)
  }

  function Grown<T>(chunks: seq<seq<T>>, x: T, size: T -> int, overhead: nat -> int, limit: int): seq<seq<T>> {
    if chunks != [] && Fits(chunks[|chunks| - 1] + [x], size, overhead, limit)
    then chunks[..|chunks| - 1] + [chunks[|chunks| - 1] + [x]]
    else chunks + [[x]]
  }

  lemma {:induction false} MaximalLast<T>(chunks: seq<seq<T>>, size: T -> int, overhead: nat -> int, limit: int)
    requires Maximal(chunks, size, overhead, limit) && |chunks| > 1
    ensures Full(chunks[|chunks| - 2], chunks[|chunks| - 1], size, overhead, limit)
  {
    if |chunks| > 2 {
      MaximalLast(chunks[1..], size, overhead, limit);
    }
  }

  lemma GrownShape<T>(chunks: seq<seq<T>>, x: T, size: T -> int, overhead: nat -> int, limit: int)
    requires AllAllowed(chunks, size, overhead, limit) && Maximal(chunks, size, overhead, limit)
    ensures var grown := Grown(chunks, x, size, overhead, limit);
            && Concat(grown) == Concat(chunks) + [x]
            && AllAllowed(grown, size, overhead, limit) && Maximal(grown, size, overhead, limit)
  {
    hide Concat, Maximal, Fits;
    if chunks != [] && Fits(chunks[|chunks| - 1] + [x], size, overhead, limit) {
      var before, run := chunks[..|chunks| - 1], chunks[|chunks| - 1];
      assert chunks == before + [run];
      ConcatSnoc(before, run);
      ConcatSnoc(before, run + [x]);
      MaximalPrefix(chunks, |chunks| - 1, size, overhead, limit);
      if before != [] {
        MaximalLast(chunks, size, overhead, limit);
        assert (run + [x])[0] == run[0];
      }
      MaximalSnoc(before, run + [x], size, overhead, limit);
    } else {
      ConcatSnoc(chunks, [x]);
      MaximalSnoc(chunks, [x], size, overhead, limit);
    }
  }

  /** The greedy cut is a cut of the input into runs a commit carries, none of which could have taken one more. */
  lemma {:induction false} GreedyShape<T>(items: seq<T>, size: T -> int, overhead: nat -> int, limit: int)
    ensures var chunks := Greedy(items, size, overhead, limit);
            && Concat(chunks) == items
            && AllAllowed(chunks, size, overhead, limit) && Maximal(chunks, size, overhead, limit)
    decreases |items|
  {
    if items != [] {
      hide Grown, AllAllowed, Maximal;
      GreedyShape(items[..|items| - 1], size, overhead, limit);
      GrownShape(Greedy(items[..|items| - 1], size, overhead, limit), items[|items| - 1], size, overhead, limit);
    }
  }

  /** The loop's state: the greedy cut of what was seen is the runs yielded and the run since then. */
  ghost predicate Cut<T>(items: seq<T>, i: nat, start: nat, total: int, chunks: seq<seq<T>>,
                         size: T -> int, overhead: nat -> int, limit: int)
    requires i <= |items|
  {
    && start <= i && (start == i ==> i == 0 && chunks == [])
    && total == Total(items[start..i], size)
    && Greedy(items[..i], size, overhead, limit) == if start == i then [] else chunks + [items[start..i]]
  }

  lemma CutStart<T>(items: seq<T>, size: T -> int, overhead: nat -> int, limit: int)
    ensures Cut(items, 0, 0, 0, [], size, overhead, limit)
  {
  }

  lemma GreedyMore<T>(items: seq<T>, i: nat, size: T -> int, overhead: nat -> int, limit: int)
    requires i < |items|
    ensures Greedy(items[..i + 1], size, overhead, limit) ==
            Grown(Greedy(items[..i], size, overhead, limit), items[i], size, overhead, limit)
  {
    assert items[..i + 1][..i] == items[..i];
  }

  lemma LastGrows<T>(chunks: seq<seq<T>>, run: seq<T>, x: T, size: T -> int, overhead: nat -> int, limit: int)
    ensures Grown(chunks + [run], x, size, overhead, limit) ==
            if overhead(|run| + 1) + Total(run, size) + size(x) <= limit then chunks + [run + [x]] else chunks + [run] + [[x]]
  {
    assert (chunks + [run])[..|chunks|] == chunks;
    TotalSnoc(run, x, size);
  }

  lemma TotalOne<T>(x: T, size: T -> int)
    ensures Total([x], size) == size(x)
  {
    assert Total([], size) == 0;
  }

  lemma CutFirst<T>(items: seq<T>, i: nat, total: int, chunks: seq<seq<T>>,
                    size: T -> int, overhead: nat -> int, limit: int)
    requires i < |items| && Cut(items, i, i, total, chunks, size, overhead, limit)
    ensures Cut(items, i + 1, i, total + size(items[i]), chunks, size, overhead, limit)
  {
    GreedyMore(items, 0, size, overhead, limit);
    TotalOne(items[0], size);
    hide Total;
    assert items[..0] == [] && items[0..1] == [items[0]] && [] + [[items[0]]] == [[items[0]]];
  }

  lemma CutMore<T>(items: seq<T>, i: nat, start: nat, total: int, chunks: seq<seq<T>>,
                   size: T -> int, overhead: nat -> int, limit: int)
    requires start < i < |items| && Cut(items, i, start, total, chunks, size, overhead, limit)
    ensures var fits := overhead(i - start + 1) + total + size(items[i]) <= limit;
            if fits then Cut(items, i + 1, start, total + size(items[i]), chunks, size, overhead, limit)
            else Cut(items, i + 1, i, size(items[i]), chunks + [items[start..i]], size, overhead, limit)
  {
    hide Greedy, Total, Grown;
    var run := items[start..i];
    GreedyMore(items, i, size, overhead, limit);
    LastGrows(chunks, run, items[i], size, overhead, limit);
    TotalSnoc(run, items[i], size);
    TotalOne(items[i], size);
    assert items[start..i + 1] == run + [items[i]] && items[i..i + 1] == [items[i]];
  }

  lemma CutEnd<T>(items: seq<T>, start: nat, total: int, chunks: seq<seq<T>>,
                  size: T -> int, overhead: nat -> int, limit: int)
    requires Cut(items, |items|, start, total, chunks, size, overhead, limit)
    ensures start <= |items|
    ensures Greedy(items, size, overhead, limit) == if start < |items| then chunks + [items[start..]] else chunks
  {
    assert items[..|items|] == items && items[start..|items|] == items[start..];
  }

  /** Yields consecutive runs, each as long as one commit carries. */
  method ChunksByCommitSize<T>(items: seq<T>, sizes: seq<int>, overhead: nat -> int, limit: int, ghost size: T -> int)
    returns (chunks: seq<seq<T>>)
    requires |sizes| == |items|
    requires forall i :: 0 <= i < |items| ==> sizes[i] == size(items[i])
    ensures Concat(chunks) == items
    ensures AllAllowed(chunks, size, overhead, limit)
    ensures Maximal(chunks, size, overhead, limit)
    ensures chunks == Greedy(items, size, overhead, limit)
  {
    hide *;
    chunks := [];
    var start, total := 0, 0;
    CutStart(items, size, overhead, limit);
    for i := 0 to |items|
      invariant start <= i
      invariant Cut(items, i, start, total, chunks, size, overhead, limit)
    {
      if i == start {
        CutFirst(items, i, total, chunks, size, overhead, limit);
      } else {
        CutMore(items, i, start, total, chunks, size, overhead, limit);
      }
      if i > start && overhead(i - start + 1) + total + sizes[i] > limit {
        chunks := chunks + [items[start..i]];
        start, total := i, 0;
      }
      total := total + sizes[i];
    }
    CutEnd(items, start, total, chunks, size, overhead, limit);
    GreedyShape(items, size, overhead, limit);
    if start < |items| {
      chunks := chunks + [items[start..]];
    }
  }

  // --- Greedy is optimal ---

  predicate NonNegative<T>(items: seq<T>, size: T -> int) {
    forall i :: 0 <= i < |items| ==> size(items[i]) >= 0
  }

  /** From two elements on, one more never makes the envelope smaller. */
  ghost predicate Nondecreasing(overhead: nat -> int) {
    forall m: nat, n: nat {:trigger overhead(m), overhead(n)} :: 2 <= m <= n ==> overhead(m) <= overhead(n)
  }

  lemma {:induction false} TotalGrows<T>(run: seq<T>, size: T -> int, from: nat, upTo: nat)
    requires from <= upTo <= |run| && NonNegative(run, size)
    ensures 0 <= Total(run[from..upTo], size) <= Total(run, size)
    decreases |run|
  {
    if from == upTo {
      assert run[from..upTo] == [];
      if run != [] {
        TotalGrows(run[..|run| - 1], size, 0, |run| - 1);
        assert run[..|run| - 1][0..|run| - 1] == run[..|run| - 1];
      }
    } else {
      var last := |run| - 1;
      if upTo == |run| {
        TotalGrows(run[..last], size, from, last);
        assert run[from..upTo][..last - from] == run[..last][from..last];
        assert run[from..upTo][last - from] == run[last];
      } else {
        TotalGrows(run[..last], size, from, upTo);
        assert run[..last][from..upTo] == run[from..upTo];
      }
    }
  }

  /** A run of two or more inside a run that fits, fits. */
  lemma InnerFits<T>(run: seq<T>, size: T -> int, overhead: nat -> int, limit: int, from: nat, upTo: nat)
    requires from + 2 <= upTo <= |run| && NonNegative(run, size) && Nondecreasing(overhead)
    requires Fits(run, size, overhead, limit)
    ensures Fits(run[from..upTo], size, overhead, limit)
  {
    TotalGrows(run, size, from, upTo);
    assert overhead(|run[from..upTo]|) <= overhead(|run|);
  }

  lemma ConcatCons<T>(chunks: seq<seq<T>>)
    requires chunks != []
    ensures |chunks[0]| <= |Concat(chunks)|
    ensures Concat(chunks)[..|chunks[0]|] == chunks[0] && Concat(chunks)[|chunks[0]|..] == Concat(chunks[1..])
  {
  }

  lemma Tails<T>(chunks: seq<seq<T>>, size: T -> int, overhead: nat -> int, limit: int)
    requires chunks != [] && AllAllowed(chunks, size, overhead, limit)
    ensures AllAllowed(chunks[1..], size, overhead, limit)
    ensures Maximal(chunks, size, overhead, limit) ==> Maximal(chunks[1..], size, overhead, limit)
  {
    assert forall i :: 0 <= i < |chunks| - 1 ==> chunks[1..][i] == chunks[i + 1];
  }

  lemma NonNegativeTail<T>(items: seq<T>, n: nat, size: T -> int)
    requires NonNegative(items, size) && n <= |items|
    ensures NonNegative(items[n..], size)
  {
  }

  /** When the greedy cut is ahead, what is left of it needs no more chunks than what is left of another split. */
  lemma {:induction false} StaysAhead<T>(greedy: seq<seq<T>>, other: seq<seq<T>>, lag: nat,
                                         size: T -> int, overhead: nat -> int, limit: int)
    requires AllAllowed(greedy, size, overhead, limit) && Maximal(greedy, size, overhead, limit)
    requires AllAllowed(other, size, overhead, limit)
    requires lag <= |Concat(other)| && Concat(greedy) == Concat(other)[lag..]
    requires NonNegative(Concat(other), size) && Nondecreasing(overhead)
    ensures |greedy| <= |other|
    decreases |other|
  {
    if greedy != [] {
      hide Fits, Total;
      ConcatCons(greedy);
      assert other != [];
      ConcatCons(other);
      Tails(greedy, size, overhead, limit);
      Tails(other, size, overhead, limit);
      NonNegativeTail(Concat(other), |other[0]|, size);
      var x, y, g, o := Concat(greedy), Concat(other), greedy[0], other[0];
      if |o| > lag {
        NotInside(greedy, other, lag, size, overhead, limit);
      }
      hide *;
      if |o| <= lag {
        assert y[|o|..][lag - |o|..] == y[lag..];
        StaysAhead(greedy, other[1..], lag - |o|, size, overhead, limit);
      } else {
        var next := lag + |g| - |o|;
        assert y[|o|..][next..] == y[lag..][|g|..];
        StaysAhead(greedy[1..], other[1..], next, size, overhead, limit);
      }
    }
  }

  /** A run that fits cannot reach past a greedy chunk it starts no later than. */
  lemma NotInside<T>(greedy: seq<seq<T>>, other: seq<seq<T>>, lag: nat,
                     size: T -> int, overhead: nat -> int, limit: int)
    requires greedy != [] && other != []
    requires AllAllowed(greedy, size, overhead, limit) && Maximal(greedy, size, overhead, limit)
    requires AllAllowed(other, size, overhead, limit)
    requires lag < |other[0]| && Concat(greedy) == Concat(other)[lag..]
    requires NonNegative(Concat(other), size) && Nondecreasing(overhead)
    ensures |other[0]| - lag <= |greedy[0]|
  {
    ConcatCons(greedy);
    ConcatCons(other);
    var x, y, g, o := Concat(greedy), Concat(other), greedy[0], other[0];
    if |o| - lag > |g| {
      NextFull(greedy, size, overhead, limit);
      hide Concat, Maximal, Total;
      assert o[lag..lag + |g| + 1] == x[..|g| + 1] by {
        assert o == y[..|o|];
        assert y[..|o|][lag..lag + |g| + 1] == y[lag..][..|g| + 1];
      }
      assert forall i :: 0 <= i < |o| ==> o[i] == y[i];
      InnerFits(o, size, overhead, limit, lag, lag + |g| + 1);
    }
  }

  lemma NextFull<T>(greedy: seq<seq<T>>, size: T -> int, overhead: nat -> int, limit: int)
    requires greedy != [] && Maximal(greedy, size, overhead, limit) && |Concat(greedy)| > |greedy[0]|
    ensures !Fits(Concat(greedy)[..|greedy[0]| + 1], size, overhead, limit)
  {
    ConcatCons(greedy);
    assert |greedy| > 1;
    ConcatCons(greedy[1..]);
    assert Concat(greedy)[..|greedy[0]| + 1] == greedy[0] + [greedy[1][0]];
  }

  /** No split into runs a commit carries uses fewer commits than the greedy one. */
  lemma GreedyIsOptimal<T>(items: seq<T>, other: seq<seq<T>>, size: T -> int, overhead: nat -> int, limit: int)
    requires Concat(other) == items && AllAllowed(other, size, overhead, limit)
    requires NonNegative(items, size) && Nondecreasing(overhead)
    ensures |Greedy(items, size, overhead, limit)| <= |other|
  {
    GreedyShape(items, size, overhead, limit);
    assert items[0..] == items;
    StaysAhead(Greedy(items, size, overhead, limit), other, 0, size, overhead, limit);
  }

  /** Whatever the elements, their sizes and the limit, the greedy cut uses as few commits as any split. */
  ghost predicate AlwaysOptimal<T(!new)>(overhead: nat -> int) {
    forall items: seq<T>, size: T -> int, limit: int, other: seq<seq<T>> ::
      NonNegative(items, size) && Concat(other) == items && AllAllowed(other, size, overhead, limit) ==>
        |Greedy(items, size, overhead, limit)| <= |other|
  }

  lemma {:induction false} TotalZero<T>(run: seq<T>)
    ensures Total(run, (y: T) => 0) == 0
  {
    if run != [] {
      TotalZero(run[..|run| - 1]);
    }
  }

  lemma OneRun<T>(chunks: seq<seq<T>>)
    ensures |chunks| == 1 ==> Concat(chunks) == chunks[0]
  {
  }

  /** Where one element more shrinks the envelope, the greedy cut misses the run that the smaller one admits. */
  lemma ShrinkingEnvelope<T>(x: T, k: nat, overhead: nat -> int) returns (items: seq<T>, size: T -> int)
    requires k >= 2 && overhead(k) > overhead(k + 1)
    ensures |items| == k + 1 && (forall i :: 0 <= i <= k ==> items[i] == x) && forall y :: size(y) == 0
    ensures Concat([items]) == items && AllAllowed([items], size, overhead, overhead(k + 1))
    ensures |Greedy(items, size, overhead, overhead(k + 1))| > 1
  {
    items, size := seq(k + 1, i => x), (y: T) => 0;
    TotalZero(items);
    TotalZero(items[..k]);
    OneRun([items]);
    var before := Greedy(items[..k], size, overhead, overhead(k + 1));
    GreedyShape(items[..k], size, overhead, overhead(k + 1));
    GreedyMore(items, k, size, overhead, overhead(k + 1));
    assert items[..k + 1] == items;
    hide Maximal, Total, Greedy;
    assert !Fits(items[..k], size, overhead, overhead(k + 1));
    OneRun(before);
    assert before != [];
    hide Concat;
  }

  lemma {:induction false} FirstShrink(overhead: nat -> int, m: nat, n: nat) returns (k: nat)
    requires 2 <= m <= n && overhead(m) > overhead(n)
    ensures k >= 2 && overhead(k) > overhead(k + 1)
    decreases n
  {
    if overhead(n - 1) > overhead(n) {
      k := n - 1;
    } else {
      k := FirstShrink(overhead, m, n - 1);
    }
  }

  /** The greedy cut is always optimal exactly when the envelope does not shrink from two elements on. */
  lemma OptimalExactly<T(!new)>(x: T, overhead: nat -> int)
    ensures AlwaysOptimal<T>(overhead) <==> Nondecreasing(overhead)
  {
    if Nondecreasing(overhead) {
      forall items: seq<T>, size: T -> int, limit: int, other: seq<seq<T>> |
        NonNegative(items, size) && Concat(other) == items && AllAllowed(other, size, overhead, limit)
        ensures |Greedy(items, size, overhead, limit)| <= |other|
      {
        GreedyIsOptimal(items, other, size, overhead, limit);
      }
    } else {
      var m: nat, n: nat :| 2 <= m <= n && overhead(m) > overhead(n);
      var k := FirstShrink(overhead, m, n);
      var items, size := ShrinkingEnvelope(x, k, overhead);
      hide Greedy, Concat, AllAllowed;
      assert |Greedy(items, size, overhead, overhead(k + 1))| > |[items]|;
    }
  }

  // --- Sending them ---

  datatype Failure = CannotSize | TooLarge | Refused

  /** What the service answers to one commit. */
  datatype Response<K> = Rejected | NoResult | Stored(keys: seq<K>)

  datatype Outcome<K> = Done(keys: seq<K>) | Failed(failure: Failure)

  /** The keys of the commits up to the first rejection. */
  function KeysOf<T, K>(chunks: seq<seq<T>>, respond: seq<T> -> Response<K>): seq<K> {
    if chunks == [] then []
    else
      var last := |chunks| - 1;
      KeysOf(chunks[..last], respond) + match respond(chunks[last]) case Stored(keys) => keys case _ => []
  }

  predicate Measured<T>(v: T, measure: T -> Option<int>, overhead: nat -> int, limit: int) {
    measure(v).Some? && overhead(1) + measure(v).value <= limit
  }

  predicate FirstUnsendable<T>(vs: seq<T>, i: nat, measure: T -> Option<int>, overhead: nat -> int, limit: int) {
    && i < |vs| && !Measured(vs[i], measure, overhead, limit)
    && forall j :: 0 <= j < i ==> Measured(vs[j], measure, overhead, limit)
  }

  function SizeOf<T>(measure: T -> Option<int>): T -> int {
    v => measure(v).GetOr(0)
  }

  /** A value passes exactly when it can be sized and a commit of it alone is within the limit. */
  lemma MeasuredExactly<T>(v: T, measure: T -> Option<int>, overhead: nat -> int, limit: int)
    ensures Measured(v, measure, overhead, limit) <==> measure(v).Some? && Fits([v], SizeOf(measure), overhead, limit)
  {
    TotalOne(v, SizeOf(measure));
  }

  /**
   * Encodes, sizes and commits every value. Either some value cannot be sized or sent alone,
   * the first such value says which, and nothing is sent; or every request sent is within the
   * limit, the requests are the greedy cut of the input up to the first the service rejects,
   * and the keys come back in input order.
   */
  method MutateAll<T, K>(vs: seq<T>, measure: T -> Option<int>, overhead: nat -> int, limit: int,
                         respond: seq<T> -> Response<K>)
    returns (out: Outcome<K>, sent: seq<seq<T>>)
    ensures out == Failed(CannotSize) || out == Failed(TooLarge) <==>
            exists i :: 0 <= i < |vs| && !Measured(vs[i], measure, overhead, limit)
    ensures out == Failed(CannotSize) || out == Failed(TooLarge) ==>
              sent == [] && exists i: nat :: FirstUnsendable(vs, i, measure, overhead, limit) &&
                                        (out == Failed(CannotSize) <==> measure(vs[i]).None?)
    ensures forall i :: 0 <= i < |sent| ==> sent[i] != [] && Fits(sent[i], SizeOf(measure), overhead, limit)
    ensures Maximal(sent, SizeOf(measure), overhead, limit) && Concat(sent) <= vs
    ensures sent <= Greedy(vs, SizeOf(measure), overhead, limit)
    ensures forall i :: 0 <= i < |sent| && i != |sent| - 1 ==> !respond(sent[i]).Rejected?
    ensures out == Failed(Refused) ==> sent != [] && respond(sent[|sent| - 1]).Rejected?
    ensures out.Done? ==> Concat(sent) == vs && out.keys == KeysOf(sent, respond)
    ensures out.Done? ==> forall i :: 0 <= i < |sent| ==> !respond(sent[i]).Rejected?
  {
    hide Concat, AllAllowed, Maximal, Fits, KeysOf, Greedy;
    sent := [];
    var failure, sizes := MeasureAll(vs, measure, overhead, limit);
    if failure.Some? {
      SentNone(vs, measure, overhead, limit, respond);
      var i: nat :| FirstUnsendable(vs, i, measure, overhead, limit);
      return Failed(failure.value), [];
    }
    var chunks := ChunksByCommitSize(vs, sizes, overhead, limit, SizeOf(measure));
    var keys: seq<K> := [];
    SentNone(vs, measure, overhead, limit, respond);
    for i := 0 to |chunks|
      invariant sent == chunks[..i] && keys == KeysOf(sent, respond)
      invariant forall j :: 0 <= j < i ==> !respond(chunks[j]).Rejected?
    {
      assert chunks[..i + 1] == sent + [chunks[i]];
      KeysSnoc(sent, chunks[i], respond);
      SentRight(vs, chunks, i + 1, measure, overhead, limit);
      sent := sent + [chunks[i]];
      match respond(chunks[i])
      case Rejected => return Failed(Refused), sent;
      case NoResult => assert keys + [] == keys;
      case Stored(more) => keys := keys + more;
    }
    assert chunks[..|chunks|] == chunks;
    SentRight(vs, chunks, |chunks|, measure, overhead, limit);
    return Done(keys), sent;
  }

  /** Sizes every value, stopping at the first that cannot be sized or sent alone. */
  method MeasureAll<T>(vs: seq<T>, measure: T -> Option<int>, overhead: nat -> int, limit: int)
    returns (failure: Option<Failure>, sizes: seq<int>)
    ensures failure.None? ==> |sizes| == |vs|
    ensures failure.None? ==> forall i :: 0 <= i < |vs| ==> Measured(vs[i], measure, overhead, limit)
    ensures failure.None? ==> forall i :: 0 <= i < |vs| ==> sizes[i] == SizeOf(measure)(vs[i])
    ensures failure.Some? ==> failure.value == CannotSize || failure.value == TooLarge
    ensures failure.Some? ==> exists i: nat :: FirstUnsendable(vs, i, measure, overhead, limit) && (failure.value == CannotSize <==> measure(vs[i]).None?)
  {
    sizes := [];
    var alone := overhead(1);
    for i := 0 to |vs|
      invariant |sizes| == i
      invariant forall j :: 0 <= j < i ==> Measured(vs[j], measure, overhead, limit) && sizes[j] == SizeOf(measure)(vs[j])
    {
      match measure(vs[i])
      case None =>
        assert FirstUnsendable(vs, i, measure, overhead, limit);
        return Some(CannotSize), sizes;
      case Some(size) =>
        if alone + size > limit {
          assert FirstUnsendable(vs, i, measure, overhead, limit);
          return Some(TooLarge), sizes;
        }
        sizes := sizes + [size];
    }
    return None, sizes;
  }

  lemma KeysSnoc<T, K>(chunks: seq<seq<T>>, run: seq<T>, respond: seq<T> -> Response<K>)
    ensures KeysOf(chunks + [run], respond) ==
            KeysOf(chunks, respond) + match respond(run) case Stored(keys) => keys case _ => []
  {
    assert (chunks + [run])[..|chunks|] == chunks;
  }

  lemma SentNone<T, K>(vs: seq<T>, measure: T -> Option<int>, overhead: nat -> int, limit: int, respond: seq<T> -> Response<K>)
    ensures Maximal<T>([], SizeOf(measure), overhead, limit) && Concat<T>([]) <= vs
    ensures KeysOf<T, K>([], respond) == []
  {
  }

  lemma SentRight<T>(vs: seq<T>, chunks: seq<seq<T>>, n: nat, measure: T -> Option<int>, overhead: nat -> int, limit: int)
    requires n <= |chunks| && Concat(chunks) == vs
    requires AllAllowed(chunks, SizeOf(measure), overhead, limit) && Maximal(chunks, SizeOf(measure), overhead, limit)
    requires forall i :: 0 <= i < |vs| ==> Measured(vs[i], measure, overhead, limit)
    ensures forall i :: 0 <= i < n ==> chunks[i] != [] && Fits(chunks[i], SizeOf(measure), overhead, limit)
    ensures Maximal(chunks[..n], SizeOf(measure), overhead, limit) && Concat(chunks[..n]) <= vs
  {
    ConcatSplit(chunks, n);
    MaximalPrefix(chunks, n, SizeOf(measure), overhead, limit);
    hide Concat, Maximal;
    forall i | 0 <= i < n ensures Fits(chunks[i], SizeOf(measure), overhead, limit) {
      if |chunks[i]| == 1 {
        InConcat(chunks, i);
        TotalSnoc([], chunks[i][0], SizeOf(measure));
        assert [] + [chunks[i][0]] == chunks[i];
      }
    }
  }

  lemma {:induction false} ConcatSplit<T>(chunks: seq<seq<T>>, n: nat)
    requires n <= |chunks|
    ensures Concat(chunks) == Concat(chunks[..n]) + Concat(chunks[n..])
  {
    if n > 0 {
      ConcatSplit(chunks[1..], n - 1);
      assert chunks[..n][1..] == chunks[1..][..n - 1] && chunks[1..][n - 1..] == chunks[n..];
    } else {
      assert chunks[0..] == chunks;
    }
  }

  lemma InConcat<T>(chunks: seq<seq<T>>, i: nat)
    requires i < |chunks| && chunks[i] != []
    ensures chunks[i][0] in Concat(chunks)
  {
    ConcatSplit(chunks, i);
    assert chunks[i..][0] == chunks[i];
    var tail := Concat(chunks[i..]);
    assert tail[0] == chunks[i][0];
  }
}
