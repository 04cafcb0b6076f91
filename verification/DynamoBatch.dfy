/**
 * Batched writes. The service returns the items it declined, not their positions, so each is
 * matched back by value to an input that is not yet matched. Nothing is invented, and
 * nothing is lost as long as the service declines only what it was sent.
 */
module DynamoBatch {
  import opened ByteStrings

  /** An attribute value by the one form it holds; Invalid holds none, or more than one. */
  datatype Attribute =
    | S(text: string) | N(number: string) | B(binary: bytes) | Bool(flag: bool) | Null
    | L(list: seq<Attribute>) | M(attributes: Item)
    | SS(texts: seq<string>) | NS(numbers: seq<string>) | BS(binaries: seq<bytes>)
    | Invalid

  /** A map from attribute names to values, as the set of its entries. */
  datatype Item = Item(fields: set<Field>)

  datatype Field = Field(name: string, value: Attribute)

  /** What a map is by construction: one entry a name, at every depth. */
  predicate IsMap(item: Item)
    decreases item, 0
  {
    && (forall f, g :: f in item.fields && g in item.fields && f.name == g.name ==> f == g)
    && (forall f :: f in item.fields ==> HoldsMaps(f.value))
  }

  predicate HoldsMaps(a: Attribute)
    decreases a, 1
  {
    match a
    case L(list) => forall i :: 0 <= i < |list| ==> HoldsMaps(list[i])
    case M(attributes) => IsMap(attributes)
    case _ => true
  }

  // --- Comparing items ---

  /** Equal counts, and every name of the one held by the other with an equal value. */
  predicate EqualItem(a: Item, b: Item)
    decreases a, 0
  {
    && |a.fields| == |b.fields|
    && forall f | f in a.fields :: exists g | g in b.fields :: g.name == f.name && EqualAttribute(f.value, g.value)
  }

  predicate EqualAttribute(a: Attribute, b: Attribute)
    decreases a, 1
  {
    match a
    case S(text) => b.S? && text == b.text
    case N(number) => b.N? && number == b.number
    case B(binary) => b.B? && binary == b.binary
    case Bool(flag) => b.Bool? && flag == b.flag
    case Null => b.Null?
    case L(list) => b.L? && |list| == |b.list| && forall i :: 0 <= i < |list| ==> EqualAttribute(list[i], b.list[i])
    case M(attributes) => b.M? && EqualItem(attributes, b.attributes)
    case SS(texts) => b.SS? && EqualStrings(texts, b.texts)
    case NS(numbers) => b.NS? && EqualStrings(numbers, b.numbers)
    case BS(binaries) =>
      b.BS? && |binaries| == |b.binaries| && forall i :: 0 <= i < |binaries| ==> binaries[i] == b.binaries[i]
    case Invalid => false
  }

  predicate EqualStrings(a: seq<string>, b: seq<string>) {
    |a| == |b| && forall i :: 0 <= i < |a| ==> a[i] == b[i]
  }

  predicate WellFormed(a: Attribute)
    decreases a, 1
  {
    match a
    case L(list) => forall i :: 0 <= i < |list| ==> WellFormed(list[i])
    case M(attributes) => WellFormedItem(attributes)
    case Invalid => false
    case _ => true
  }

  predicate WellFormedItem(item: Item)
    decreases item, 0
  {
    forall f :: f in item.fields ==> WellFormed(f.value)
  }

  /** The comparison is equality, on exactly the values that hold no invalid attribute. */
  lemma {:induction false} EqualAttributeIsEquality(a: Attribute, b: Attribute)
    requires HoldsMaps(a) && HoldsMaps(b)
    ensures EqualAttribute(a, b) <==> a == b && WellFormed(a)
    decreases a, 1
  {
    match a
    case L(list) =>
      if b.L? && |list| == |b.list| {
        forall i | 0 <= i < |list| {
          EqualAttributeIsEquality(list[i], b.list[i]);
        }
      }
    case M(attributes) =>
      if b.M? {
        EqualItemIsEquality(attributes, b.attributes);
      }
    case _ =>
  }

  lemma {:induction false} EqualItemIsEquality(a: Item, b: Item)
    requires IsMap(a) && IsMap(b)
    ensures EqualItem(a, b) <==> a == b && WellFormedItem(a)
    decreases a, 0
  {
    forall f, g | f in a.fields && g in b.fields
      ensures EqualAttribute(f.value, g.value) <==> f.value == g.value && WellFormed(f.value)
    {
      EqualAttributeIsEquality(f.value, g.value);
    }
    if EqualItem(a, b) {
      forall f | f in a.fields ensures f in b.fields && WellFormed(f.value) {
        var g :| g in b.fields && g.name == f.name && EqualAttribute(f.value, g.value);
        assert g == Field(f.name, f.value);
      }
      SameSize(a.fields, b.fields);
    }
    if a == b && WellFormedItem(a) {
      forall f | f in a.fields ensures f in b.fields && EqualAttribute(f.value, f.value) {
      }
    }
  }

  lemma SameSize<T>(a: set<T>, b: set<T>)
    requires a <= b && |a| == |b|
    ensures a == b
  {
    assert |b - a| == |b| - |a|;
  }

  // --- Matching one response ---

  /** One declined request; a response may name requests that are no puts. */
  type Declined = Option<Item>

  function Puts(declined: seq<Declined>): multiset<Item> {
    if declined == [] then multiset{}
    else
      var last := declined[|declined| - 1];
      Puts(declined[..|declined| - 1]) + if last.Some? then multiset{last.value} else multiset{}
  }

  /** The elements not yet matched. */
  function Left<T(==)>(xs: seq<T>, matched: seq<bool>): multiset<T>
    requires |xs| == |matched|
  {
    if xs == [] then multiset{}
    else
      var last := |xs| - 1;
      Left(xs[..last], matched[..last]) + if matched[last] then multiset{} else multiset{xs[last]}
  }

  lemma {:induction false} LeftAll<T>(xs: seq<T>, matched: seq<bool>)
    requires |xs| == |matched| && forall i :: 0 <= i < |xs| ==> !matched[i]
    ensures Left(xs, matched) == multiset(xs)
  {
    if xs != [] {
      var last := |xs| - 1;
      LeftAll(xs[..last], matched[..last]);
      assert xs == xs[..last] + [xs[last]];
    }
  }

  lemma {:induction false} LeftMark<T>(xs: seq<T>, matched: seq<bool>, i: nat)
    requires |xs| == |matched| && i < |xs| && !matched[i]
    ensures Left(xs, matched) == Left(xs, matched[i := true]) + multiset{xs[i]}
  {
    var last := |xs| - 1;
    if i < last {
      LeftMark(xs[..last], matched[..last], i);
      assert matched[i := true][..last] == matched[..last][i := true];
    } else {
      assert matched[i := true][..last] == matched[..last];
    }
  }

  lemma {:induction false} LeftMember<T>(xs: seq<T>, matched: seq<bool>, x: T)
    requires |xs| == |matched|
    ensures x in Left(xs, matched) <==> exists i :: 0 <= i < |xs| && !matched[i] && xs[i] == x
  {
    if xs != [] {
      var last := |xs| - 1;
      LeftMember(xs[..last], matched[..last], x);
      assert x in Left(xs, matched) <==> x in Left(xs[..last], matched[..last]) || (!matched[last] && xs[last] == x);
    }
  }

  function Encodings<T>(vs: seq<T>, encode: T -> Item): seq<Item> {
    seq(|vs|, i requires 0 <= i < |vs| => encode(vs[i]))
  }

  lemma EncodingsSnoc<T>(vs: seq<T>, v: T, encode: T -> Item)
    ensures Encodings(vs + [v], encode) == Encodings(vs, encode) + [encode(v)]
  {
  }

  /** The values taken so far account for the puts seen so far, as far as the chunk had any to take. */
  ghost predicate Accounted<T>(chunk: seq<T>, items: seq<Item>, matched: seq<bool>, taken: seq<T>, puts: multiset<Item>,
                                   encode: T -> Item) {
    && |items| == |matched| == |chunk|
    && multiset(taken) + Left(chunk, matched) == multiset(chunk)
    && multiset(Encodings(taken, encode)) + Left(items, matched) == multiset(items)
    && multiset(Encodings(taken, encode)) == puts * multiset(items)
  }

  lemma Match<T>(chunk: seq<T>, items: seq<Item>, matched: seq<bool>, taken: seq<T>, puts: multiset<Item>,
                 encode: T -> Item, put: Item, i: nat)
    requires Accounted(chunk, items, matched, taken, puts, encode) && items == Encodings(chunk, encode)
    requires i < |items| && !matched[i] && items[i] == put
    ensures Accounted(chunk, items, matched[i := true], taken + [chunk[i]], puts + multiset{put}, encode)
  {
    hide Left, Encodings;
    LeftMark(chunk, matched, i);
    LeftMark(items, matched, i);
    EncodingsSnoc(taken, chunk[i], encode);
    EncodingAt(chunk, encode, i);
    var enc, e, d := multiset(Encodings(taken, encode)), multiset(items), puts;
    assert multiset(Encodings(taken, encode) + [put]) == enc + multiset{put};
    assert multiset(taken + [chunk[i]]) == multiset(taken) + multiset{chunk[i]};
    assert enc[put] < e[put];
    assert (d + multiset{put}) * e == d * e + multiset{put};
  }

  lemma EncodingAt<T>(vs: seq<T>, encode: T -> Item, i: nat)
    requires i < |vs|
    ensures |Encodings(vs, encode)| == |vs| && Encodings(vs, encode)[i] == encode(vs[i])
  {
  }

  lemma NoMatch<T>(chunk: seq<T>, items: seq<Item>, matched: seq<bool>, taken: seq<T>, puts: multiset<Item>,
                   encode: T -> Item, put: Item)
    requires Accounted(chunk, items, matched, taken, puts, encode)
    requires forall i :: 0 <= i < |items| && !matched[i] ==> items[i] != put
    ensures Accounted(chunk, items, matched, taken, puts + multiset{put}, encode)
  {
    LeftMember(items, matched, put);
    hide Left, Encodings;
    var enc, e := multiset(Encodings(taken, encode)), multiset(items);
    assert enc[put] == e[put];
    assert (puts + multiset{put}) * e == puts * e;
  }

  /** Maps the declined puts of one response back to inputs of its chunk, each input at most once. */
  method MatchDeclined<T(==)>(chunk: seq<T>, items: seq<Item>, declined: seq<Declined>, encode: T -> Item)
    returns (taken: seq<T>)
    requires items == Encodings(chunk, encode)
    requires forall i :: 0 <= i < |items| ==> IsMap(items[i]) && WellFormedItem(items[i])
    requires forall j :: 0 <= j < |declined| && declined[j].Some? ==> IsMap(declined[j].value)
    ensures multiset(taken) <= multiset(chunk)
    ensures multiset(Encodings(taken, encode)) == Puts(declined) * multiset(items)
  {
    hide Accounted, Left, Puts, EqualItem, WellFormedItem, IsMap, Encodings;
    EncodingCount(chunk, encode);
    taken := [];
    var matched := new bool[|chunk|](i => false);
    assert matched[..] == seq(|chunk|, i => false);
    AccountedStart(chunk, items, matched[..], encode);
    for j := 0 to |declined|
      invariant Accounted(chunk, items, matched[..], taken, Puts(declined[..j]), encode)
    {
      PutsSnoc(declined, j);
      assert Puts(declined[..j]) + multiset{} == Puts(declined[..j]);
      if declined[j].Some? {
        var put := declined[j].value;
        var i := 0;
        ghost var before := matched[..];
        while i < |chunk| && (matched[i] || !EqualItem(items[i], put))
          invariant i <= |chunk| && matched[..] == before
          invariant forall k :: 0 <= k < i && !matched[k] ==> items[k] != put
        {
          EqualItemIsEquality(items[i], put);
          i := i + 1;
        }
        if i < |chunk| {
          EqualItemIsEquality(items[i], put);
          Match(chunk, items, matched[..], taken, Puts(declined[..j]), encode, put, i);
          matched[i] := true;
          assert matched[..] == before[i := true];
          taken := taken + [chunk[i]];
        } else {
          NoMatch(chunk, items, matched[..], taken, Puts(declined[..j]), encode, put);
        }
      }
    }
    assert declined[..|declined|] == declined;
    AccountedEnd(chunk, items, matched[..], taken, Puts(declined), encode);
  }

  lemma EncodingCount<T>(vs: seq<T>, encode: T -> Item)
    ensures |Encodings(vs, encode)| == |vs|
  {
  }

  lemma AccountedStart<T>(chunk: seq<T>, items: seq<Item>, matched: seq<bool>, encode: T -> Item)
    requires |items| == |matched| == |chunk| && forall i :: 0 <= i < |matched| ==> !matched[i]
    ensures Accounted(chunk, items, matched, [], Puts([]), encode)
  {
    LeftAll(chunk, matched);
    LeftAll(items, matched);
  }

  lemma PutsSnoc(declined: seq<Declined>, j: nat)
    requires j < |declined|
    ensures Puts(declined[..j + 1]) ==
            Puts(declined[..j]) + if declined[j].Some? then multiset{declined[j].value} else multiset{}
  {
    assert declined[..j + 1][..j] == declined[..j];
  }

  lemma AccountedEnd<T>(chunk: seq<T>, items: seq<Item>, matched: seq<bool>, taken: seq<T>, puts: multiset<Item>,
                        encode: T -> Item)
    requires Accounted(chunk, items, matched, taken, puts, encode)
    ensures multiset(taken) <= multiset(chunk)
    ensures multiset(Encodings(taken, encode)) == puts * multiset(items)
  {
  }

  // --- The whole batch ---

  const MaxBatchWrite: nat := 25

  datatype Response = Failed | NoResult | Answered(declined: seq<Declined>)

  function Chunk<T>(vs: seq<T>, k: nat): seq<T>
    requires k * MaxBatchWrite <= |vs|
  {
    var start := k * MaxBatchWrite;
    vs[start..if start + MaxBatchWrite < |vs| then start + MaxBatchWrite else |vs|]
  }

  function PutsOf(r: Response): multiset<Item> {
    if r.Answered? then Puts(r.declined) else multiset{}
  }

  /** What the service declined of the first n requests, as far as it had been sent. */
  function DeclinedOf<T>(vs: seq<T>, n: nat, respond: nat -> Response, encode: T -> Item): multiset<Item>
    requires n == 0 || (n - 1) * MaxBatchWrite <= |vs|
  {
    if n == 0 then multiset{}
    else
      DeclinedOf(vs, n - 1, respond, encode) + PutsOf(respond(n - 1)) * multiset(Encodings(Chunk(vs, n - 1), encode))
  }

  /** Every value's encoding is a well-formed map, and so is every put the service names. */
  predicate Encodable<T>(vs: seq<T>, encode: T -> Item) {
    forall i :: 0 <= i < |vs| ==> IsMap(encode(vs[i])) && WellFormedItem(encode(vs[i]))
  }

  predicate NamesMaps(r: Response) {
    r.Answered? ==> forall j :: 0 <= j < |r.declined| && r.declined[j].Some? ==> IsMap(r.declined[j].value)
  }

  /** The requests made before the k-th, all of them answered. */
  predicate Requests<T>(vs: seq<T>, n: nat, respond: nat -> Response) {
    && (n > 0 ==> (n - 1) * MaxBatchWrite < |vs|)
    && forall k :: 0 <= k < n ==> !respond(k).Failed?
  }

  /** Where n requests leave the batch. */
  ghost predicate Progress<T>(vs: seq<T>, n: nat, unprocessed: seq<T>, respond: nat -> Response, encode: T -> Item) {
    && Requests(vs, n, respond)
    && multiset(unprocessed) <= multiset(vs[..if n * MaxBatchWrite < |vs| then n * MaxBatchWrite else |vs|])
    && multiset(Encodings(unprocessed, encode)) == DeclinedOf(vs, n, respond, encode)
  }

  lemma ProgressStart<T>(vs: seq<T>, respond: nat -> Response, encode: T -> Item)
    ensures Progress(vs, 0, [], respond, encode)
  {
    assert vs[..0] == [];
  }

  lemma ProgressStep<T>(vs: seq<T>, n: nat, unprocessed: seq<T>, taken: seq<T>, respond: nat -> Response, encode: T -> Item)
    requires Progress(vs, n, unprocessed, respond, encode) && n * MaxBatchWrite < |vs| && !respond(n).Failed?
    requires multiset(taken) <= multiset(Chunk(vs, n))
    requires multiset(Encodings(taken, encode)) == PutsOf(respond(n)) * multiset(Encodings(Chunk(vs, n), encode))
    ensures Progress(vs, n + 1, unprocessed + taken, respond, encode)
  {
    hide Encodings, Puts;
    var start := n * MaxBatchWrite;
    var end := if start + MaxBatchWrite < |vs| then start + MaxBatchWrite else |vs|;
    assert vs[..end] == vs[..start] + Chunk(vs, n);
    assert multiset(vs[..end]) == multiset(vs[..start]) + multiset(Chunk(vs, n));
    assert multiset(unprocessed + taken) == multiset(unprocessed) + multiset(taken);
    EncodingsUnion(unprocessed, taken, encode);
  }

  lemma ProgressMeans<T>(vs: seq<T>, n: nat, unprocessed: seq<T>, respond: nat -> Response, encode: T -> Item)
    requires Progress(vs, n, unprocessed, respond, encode)
    ensures Requests(vs, n, respond)
    ensures multiset(unprocessed) <= multiset(vs)
    ensures multiset(Encodings(unprocessed, encode)) == DeclinedOf(vs, n, respond, encode)
  {
    var upTo := if n * MaxBatchWrite < |vs| then n * MaxBatchWrite else |vs|;
    assert vs == vs[..upTo] + vs[upTo..];
    assert multiset(vs) == multiset(vs[..upTo]) + multiset(vs[upTo..]);
  }

  /** Encodes one chunk. */
  method EncodeAll<T>(chunk: seq<T>, encode: T -> Item) returns (items: seq<Item>)
    ensures items == Encodings(chunk, encode)
  {
    items := [];
    for i := 0 to |chunk|
      invariant items == Encodings(chunk[..i], encode)
    {
      EncodingsSnoc(chunk[..i], chunk[i], encode);
      assert chunk[..i + 1] == chunk[..i] + [chunk[i]];
      items := items + [encode(chunk[i])];
    }
    assert chunk[..|chunk|] == chunk;
  }

  /**
   * Writes every value in requests of at most 25. Whatever the service answers, the values
   * reported unprocessed are distinct inputs, and their encodings are exactly the declined
   * puts that were sent, counted with multiplicity.
   */
  method StoreAll<T(==)>(vs: seq<T>, encode: T -> Item, respond: nat -> Response)
    returns (unprocessed: seq<T>, failed: bool, requests: nat)
    requires Encodable(vs, encode) && forall k: nat :: NamesMaps(respond(k))
    ensures Requests(vs, requests, respond)
    ensures failed <==> requests * MaxBatchWrite < |vs|
    ensures failed ==> respond(requests).Failed?
    ensures multiset(unprocessed) <= multiset(vs)
    ensures multiset(Encodings(unprocessed, encode)) == DeclinedOf(vs, requests, respond, encode)
  {
    hide Encodings, Puts, IsMap, WellFormedItem, Progress, Requests, DeclinedOf;
    unprocessed, failed, requests := [], false, 0;
    ProgressStart(vs, respond, encode);
    var start := 0;
    while start < |vs|
      invariant start == requests * MaxBatchWrite && !failed
      invariant Progress(vs, requests, unprocessed, respond, encode)
      decreases |vs| - start
    {
      var end := if start + MaxBatchWrite < |vs| then start + MaxBatchWrite else |vs|;
      var chunk := vs[start..end];
      var items := EncodeAll(chunk, encode);
      var taken: seq<T> := [];
      EncodingCount(taken, encode);
      assert chunk == Chunk(vs, requests);
      match respond(requests) {
        case Failed =>
          ProgressMeans(vs, requests, unprocessed, respond, encode);
          failed := true;
          return;
        case NoResult =>
        case Answered(declined) =>
          ChunkEncodable(vs, start, end, encode);
          assert NamesMaps(respond(requests));
          taken := MatchDeclined(chunk, items, declined, encode);
      }
      ProgressStep(vs, requests, unprocessed, taken, respond, encode);
      unprocessed := unprocessed + taken;
      requests := requests + 1;
      start := start + MaxBatchWrite;
    }
    ProgressMeans(vs, requests, unprocessed, respond, encode);
  }

  /** All the declined puts of the first n responses, sent or not. */
  function AllDeclined(n: nat, respond: nat -> Response): multiset<Item> {
    if n == 0 then multiset{}
    else AllDeclined(n - 1, respond) + PutsOf(respond(n - 1))
  }

  /** Each of the first n responses declines only what its request carried. */
  predicate DeclinesOnlySent<T>(vs: seq<T>, n: nat, respond: nat -> Response, encode: T -> Item)
    requires n == 0 || (n - 1) * MaxBatchWrite <= |vs|
  {
    n == 0 || (DeclinesOnlySent(vs, n - 1, respond, encode) &&
               PutsOf(respond(n - 1)) <= multiset(Encodings(Chunk(vs, n - 1), encode)))
  }

  /**
   * The matching loses nothing exactly when every response declines only what its request
   * carried; then the declined puts are the encodings of the unprocessed values.
   */
  lemma {:induction false} NothingLost<T>(vs: seq<T>, n: nat, respond: nat -> Response, encode: T -> Item)
    requires n == 0 || (n - 1) * MaxBatchWrite <= |vs|
    ensures DeclinedOf(vs, n, respond, encode) <= AllDeclined(n, respond)
    ensures DeclinedOf(vs, n, respond, encode) == AllDeclined(n, respond) <==> DeclinesOnlySent(vs, n, respond, encode)
  {
    hide PutsOf, Encodings, Chunk;
    if n > 0 {
      NothingLost(vs, n - 1, respond, encode);
      PartLost(DeclinedOf(vs, n - 1, respond, encode), AllDeclined(n - 1, respond),
               PutsOf(respond(n - 1)), multiset(Encodings(Chunk(vs, n - 1), encode)));
    }
  }

  lemma PartLost<T>(a: multiset<T>, b: multiset<T>, d: multiset<T>, e: multiset<T>)
    requires a <= b
    ensures a + d * e <= b + d
    ensures a + d * e == b + d <==> a == b && d <= e
  {
    if a + d * e == b + d {
      forall x ensures a[x] == b[x] && d[x] <= e[x] {
        assert (a + d * e)[x] == (b + d)[x];
      }
    }
  }

  lemma TakeOne<T>(vs: seq<T>, i: nat, encode: T -> Item) returns (less: seq<T>)
    requires i < |vs|
    ensures multiset(vs) == multiset(less) + multiset{vs[i]}
    ensures multiset(Encodings(vs, encode)) == multiset(Encodings(less, encode)) + multiset{encode(vs[i])}
  {
    hide Encodings;
    less := vs[..i] + vs[i + 1..];
    assert vs == vs[..i] + [vs[i]] + vs[i + 1..];
    EncodingsUnion(vs[..i] + [vs[i]], vs[i + 1..], encode);
    EncodingsSnoc(vs[..i], vs[i], encode);
    EncodingsUnion(vs[..i], vs[i + 1..], encode);
  }

  lemma LessOne<T>(a: multiset<T>, b: multiset<T>, x: T)
    requires a + multiset{x} <= b + multiset{x}
    ensures a <= b
  {
    forall y ensures a[y] <= b[y] {
      assert (a + multiset{x})[y] <= (b + multiset{x})[y];
    }
  }

  lemma Regrouped<T>(a: multiset<T>, b: multiset<T>, c: multiset<T>)
    ensures (a + b) + c == a + (b + c)
  {
  }

  /** The values left when some are taken out of a list, and their encodings with them. */
  lemma {:induction false} Remaining<T>(vs: seq<T>, out: seq<T>, encode: T -> Item) returns (left: seq<T>)
    requires multiset(out) <= multiset(vs)
    ensures multiset(vs) == multiset(left) + multiset(out)
    ensures multiset(Encodings(vs, encode)) == multiset(Encodings(left, encode)) + multiset(Encodings(out, encode))
    decreases |out|
  {
    if out == [] {
      left := vs;
      assert Encodings(out, encode) == [];
    } else {
      hide *;
      var last := |out| - 1;
      var x := out[last];
      var j := Among(vs, out, last);
      var rest := TakeOne(out, last, encode);
      var less := TakeOne(vs, j, encode);
      LessOne(multiset(rest), multiset(less), x);
      assert |multiset(out)| == |out| && |multiset(rest)| == |rest|;
      left := Remaining(less, rest, encode);
      Regrouped(multiset(left), multiset(rest), multiset{x});
      Regrouped(multiset(Encodings(left, encode)), multiset(Encodings(rest, encode)), multiset{encode(x)});
    }
  }

  lemma Among<T>(vs: seq<T>, out: seq<T>, i: nat) returns (j: nat)
    requires multiset(out) <= multiset(vs) && i < |out|
    ensures j < |vs| && vs[j] == out[i]
  {
    assert out[i] in multiset(out) && out[i] in multiset(vs);
    j :| 0 <= j < |vs| && vs[j] == out[i];
  }

  /**
   * When every request was answered and each response declines only puts its request carried,
   * the input is what was written and what comes back unprocessed, duplicates counted: the
   * values that come back encode to the declined puts, and the others to everything else.
   */
  lemma WrittenPlusUnprocessed<T>(vs: seq<T>, n: nat, unprocessed: seq<T>, respond: nat -> Response, encode: T -> Item)
    returns (written: seq<T>)
    requires n == 0 || (n - 1) * MaxBatchWrite <= |vs|
    requires n * MaxBatchWrite >= |vs|
    requires DeclinesOnlySent(vs, n, respond, encode) && multiset(unprocessed) <= multiset(vs)
    requires multiset(Encodings(unprocessed, encode)) == DeclinedOf(vs, n, respond, encode)
    ensures multiset(vs) == multiset(written) + multiset(unprocessed)
    ensures multiset(Encodings(unprocessed, encode)) == AllDeclined(n, respond)
    ensures multiset(Encodings(vs, encode)) == multiset(Encodings(written, encode)) + AllDeclined(n, respond)
  {
    hide DeclinedOf, Encodings, AllDeclined, DeclinesOnlySent;
    NothingLost(vs, n, respond, encode);
    written := Remaining(vs, unprocessed, encode);
  }

  lemma EncodingsUnion<T>(a: seq<T>, b: seq<T>, encode: T -> Item)
    ensures multiset(Encodings(a + b, encode)) == multiset(Encodings(a, encode)) + multiset(Encodings(b, encode))
  {
    EncodingsConcat(a, b, encode);
  }

  lemma ChunkEncodable<T>(vs: seq<T>, start: nat, end: nat, encode: T -> Item)
    requires start <= end <= |vs| && Encodable(vs, encode)
    ensures var items := Encodings(vs[start..end], encode);
            forall i :: 0 <= i < |items| ==> IsMap(items[i]) && WellFormedItem(items[i])
  {
  }

  lemma EncodingsConcat<T>(a: seq<T>, b: seq<T>, encode: T -> Item)
    ensures Encodings(a + b, encode) == Encodings(a, encode) + Encodings(b, encode)
  {
  }
}
