/**
 * The order the map shape writes its members in: bytewise over the encoded key, settled by the
 * generator, so the encoding does not depend on how the fields were declared.
 */
module CborOrder {
  import opened ByteStrings
  import opened CborWire

  /** Two strings that share a beginning compare by what comes after it. */
  lemma {:induction false} LessAfter(head: bytes, a: bytes, b: bytes)
    ensures Less(head + a, head + b) <==> Less(a, b)
  {
    if head == [] {
      assert head + a == a && head + b == b;
    } else {
      assert (head + a)[1..] == head[1..] + a && (head + b)[1..] == head[1..] + b;
      LessAfter(head[1..], a, b);
    }
  }

  /** The key bytes the generator compares. */
  function EncodedTextKey(s: bytes): bytes {
    var n := |s|;
    KeyHead(n) + s
  }

  function KeyHead(n: nat): bytes {
    if n < 24 then [0x60 + n]
    else if n < 256 then [0x78, n]
    else [0x79, n / 256 % 256, n % 256]
  }

  /** Under 65536 bytes the generator's key is the key's own CBOR encoding. */
  lemma KeyIsEncoding(s: bytes)
    requires |s| < 65536
    ensures EncodedTextKey(s) == Head(3, |s|) + s
  {
    var n := |s|;
    assert BigEndian(n, 1) == BigEndian(n / 256, 0) + [n % 256];
    assert BigEndian(n, 2) == BigEndian(n / 256, 1) + [n % 256];
    assert BigEndian(n / 256, 1) == BigEndian(n / 256 / 256, 0) + [n / 256 % 256];
  }

  /** Length first, then bytes: the order of section 4.2.1 of RFC 8949 on text keys. */
  lemma KeyOrder(a: bytes, b: bytes)
    requires |a| < 65536 && |b| < 65536
    ensures Less(EncodedTextKey(a), EncodedTextKey(b)) <==> |a| < |b| || (|a| == |b| && Less(a, b))
  {
    if |a| == |b| {
      LessAfter(KeyHead(|a|), a, b);
    } else if |a| < |b| {
      ShorterFirst(a, b);
    } else {
      ShorterFirst(b, a);
      LessTotal(EncodedTextKey(a), EncodedTextKey(b));
    }
  }

  lemma ShorterFirst(a: bytes, b: bytes)
    requires |a| < |b| < 65536
    ensures Less(EncodedTextKey(a), EncodedTextKey(b))
  {
    var x, y := EncodedTextKey(a), EncodedTextKey(b);
    if |a| >= 24 && (|a| < 256) == (|b| < 256) {
      assert Less(x[1..], y[1..]) by {
        if |a| < 256 {
          assert x[1] == |a| && y[1] == |b|;
        } else {
          assert x[1] == |a| / 256 && y[1] == |b| / 256 && x[2] == |a| % 256 && y[2] == |b| % 256;
          assert x[1..][1..] == x[2..] && y[1..][1..] == y[2..];
        }
      }
    }
  }

  /** Two heads that differ decide, whatever comes after them. */
  lemma {:induction false} HeadsDecide(h: bytes, g: bytes, a: bytes, b: bytes)
    requires |h| == |g| && h != g
    ensures Less(h + a, g + b) <==> Less(h, g)
  {
    assert (h + a)[1..] == h[1..] + a && (g + b)[1..] == g[1..] + b;
    if h[0] == g[0] {
      assert h == [h[0]] + h[1..] && g == [g[0]] + g[1..];
      HeadsDecide(h[1..], g[1..], a, b);
    }
  }

  lemma KeysDecide(a: bytes, b: bytes)
    requires KeyHead(|a|) != KeyHead(|b|)
    ensures Less(EncodedTextKey(a), EncodedTextKey(b)) <==> Less(KeyHead(|a|), KeyHead(|b|))
  {
    var h, g := KeyHead(|a|), KeyHead(|b|);
    if |h| == |g| {
      HeadsDecide(h, g, a, b);
    } else {
      assert h[0] != g[0];
    }
  }

  /** A shorter length is ahead of a longer one: its head is a form of fewer bytes, or counts less in sixteen bits. */
  predicate Ahead(n: nat, m: nat) {
    n < 256 || n % 65536 < m % 65536
  }

  lemma SixteenBits(n: nat)
    ensures n % 65536 == n / 256 % 256 * 256 + n % 256
  {
    var q, r := n / 256 / 256, n / 256 % 256 * 256 + n % 256;
    assert n / 256 == 256 * q + n / 256 % 256;
    assert n == 65536 * q + r && 0 <= r < 65536;
    Remainder(n, q, r);
  }

  lemma Remainder(n: nat, q: nat, r: nat)
    requires n == 65536 * q + r && r < 65536
    ensures n % 65536 == r
  {
  }

  lemma TwoBytes(k: byte, x: byte, y: byte, u: byte, v: byte)
    ensures Less([k, x, y], [k, u, v]) <==> x < u || (x == u && y < v)
  {
    assert [k, x, y][1..] == [x, y] && [k, u, v][1..] == [u, v] && [x, y][1..] == [y] && [u, v][1..] == [v];
    assert Less([y], [v]) <==> y < v;
    assert Less([k, x, y], [k, u, v]) <==> Less([x, y], [u, v]);
  }

  lemma HeadOrder(n: nat, m: nat)
    requires n < m
    ensures Less(KeyHead(n), KeyHead(m)) <==> Ahead(n, m)
    ensures KeyHead(n) == KeyHead(m) ==> !Ahead(n, m) && n >= 256
  {
    if n >= 256 {
      SixteenBits(n);
      SixteenBits(m);
      TwoBytes(0x79, n / 256 % 256, n % 256, m / 256 % 256, m % 256);
      hide Less;
    } else if n >= 24 && m < 256 {
      assert KeyHead(n)[1..] == [n] && KeyHead(m)[1..] == [m];
    }
  }

  /** The order of the generator's keys is length first on all names of two lengths. */
  ghost predicate LengthFirst(n: nat, m: nat) {
    forall a: bytes, b: bytes :: |a| == n && |b| == m ==>
      (Less(EncodedTextKey(a), EncodedTextKey(b)) <==> n < m || (n == m && Less(a, b)))
  }

  /**
   * The generator's order is that of section 4.2.1 of RFC 8949 between two lengths exactly when
   * they are equal or the shorter one is ahead; with a length of 65536 or more it need not be.
   */
  lemma LengthFirstExactly(n: nat, m: nat)
    ensures LengthFirst(n, m) <==> n == m || (n < m && Ahead(n, m)) || (m < n && Ahead(m, n))
  {
    hide KeyHead, Less, EncodedTextKey;
    if n == m {
      forall a: bytes, b: bytes | |a| == n && |b| == m
        ensures Less(EncodedTextKey(a), EncodedTextKey(b)) <==> Less(a, b)
      {
        KeyIs(a);
        KeyIs(b);
        LessAfter(KeyHead(n), a, b);
      }
    } else {
      var low, high := if n < m then n else m, if n < m then m else n;
      HeadOrder(low, high);
      LessTotal(KeyHead(low), KeyHead(high));
      if KeyHead(n) == KeyHead(m) {
        var a: bytes, b: bytes := seq(n, i => if n < m then 1 else 0), seq(m, i => if n < m then 0 else 1);
        SameHead(a, b);
        assert !LengthFirst(n, m) by {
          assert |a| == n && |b| == m;
        }
      } else {
        forall a: bytes, b: bytes | |a| == n && |b| == m
          ensures Less(EncodedTextKey(a), EncodedTextKey(b)) <==> Less(KeyHead(n), KeyHead(m))
        {
          KeysDecide(a, b);
        }
        if LengthFirst(n, m) {
          var a: bytes, b: bytes := seq(n, i => 0), seq(m, i => 0);
          assert Less(EncodedTextKey(a), EncodedTextKey(b)) <==> n < m;
        }
      }
    }
  }

  lemma KeyIs(a: bytes)
    ensures EncodedTextKey(a) == KeyHead(|a|) + a
  {
  }

  lemma SameHead(a: bytes, b: bytes)
    requires KeyHead(|a|) == KeyHead(|b|) && a != [] && b != [] && a[0] != b[0]
    ensures Less(EncodedTextKey(a), EncodedTextKey(b)) <==> a[0] < b[0]
  {
    KeyIs(a);
    KeyIs(b);
    LessAfter(KeyHead(|a|), a, b);
  }

  /** Different names have different keys, whatever their length. */
  lemma KeyInjective(a: bytes, b: bytes)
    ensures EncodedTextKey(a) == EncodedTextKey(b) <==> a == b
  {
    var x, y := EncodedTextKey(a), EncodedTextKey(b);
    if x == y {
      assert x[0] == y[0];
      assert |KeyHead(|a|)| == |KeyHead(|b|)|;
      assert a == x[|KeyHead(|a|)|..] && b == y[|KeyHead(|b|)|..];
    }
  }

  // --- Sorting by key ---

  datatype Entry<T> = Entry(name: bytes, item: T)

  predicate Before<T>(a: Entry<T>, b: Entry<T>) {
    Less(EncodedTextKey(a.name), EncodedTextKey(b.name))
  }

  function Insert<T>(sorted: seq<Entry<T>>, e: Entry<T>): (r: seq<Entry<T>>) {
    if sorted == [] then [e]
    else if Before(e, sorted[0]) then [e] + sorted
    else [sorted[0]] + Insert(sorted[1..], e)
  }

  /** A stable sort: each entry goes after the equal ones before it. */
  function Sorted<T>(entries: seq<Entry<T>>): seq<Entry<T>> {
    if entries == [] then [] else Insert(Sorted(entries[..|entries| - 1]), entries[|entries| - 1])
  }

  predicate Ordered<T>(entries: seq<Entry<T>>) {
    forall i, j :: 0 <= i < j < |entries| ==> Before(entries[i], entries[j])
  }

  predicate DistinctNames<T>(entries: seq<Entry<T>>) {
    forall i, j :: 0 <= i < j < |entries| ==> entries[i].name != entries[j].name
  }

  lemma Counts<T>(x: T, s: seq<T>)
    ensures multiset([x] + s) == multiset{x} + multiset(s)
    ensures multiset(s + [x]) == multiset{x} + multiset(s)
  {
  }

  lemma Regroup<T>(x: multiset<T>, y: multiset<T>, z: multiset<T>)
    ensures x + (y + z) == y + (x + z)
  {
  }

  lemma Cancel<T>(x: multiset<T>, y: multiset<T>, z: multiset<T>)
    requires x + y == x + z
    ensures y == z
  {
    forall e | e in y + z ensures y[e] == z[e] {
      assert (x + y)[e] == (x + z)[e];
    }
  }

  lemma InsertStep<T>(sorted: seq<Entry<T>>, e: Entry<T>)
    ensures sorted == [] ==> Insert(sorted, e) == [e]
    ensures sorted != [] && Before(e, sorted[0]) ==> Insert(sorted, e) == [e] + sorted
    ensures sorted != [] && !Before(e, sorted[0]) ==> Insert(sorted, e) == [sorted[0]] + Insert(sorted[1..], e)
    ensures sorted != [] ==> sorted == [sorted[0]] + sorted[1..]
  {
  }

  lemma {:induction false} InsertPermutes<T>(sorted: seq<Entry<T>>, e: Entry<T>)
    ensures multiset(Insert(sorted, e)) == multiset{e} + multiset(sorted)
    ensures |Insert(sorted, e)| == |sorted| + 1
  {
    hide *;
    InsertStep(sorted, e);
    if sorted != [] {
      if Before(e, sorted[0]) {
        Counts(e, sorted);
      } else {
        var x, rest := sorted[0], sorted[1..];
        InsertPermutes(rest, e);
        Counts(x, rest);
        Counts(x, Insert(rest, e));
        Regroup(multiset{x}, multiset{e}, multiset(rest));
      }
    }
  }

  lemma SortedStep<T>(entries: seq<Entry<T>>)
    requires entries != []
    ensures var before, last := entries[..|entries| - 1], entries[|entries| - 1];
            Sorted(entries) == Insert(Sorted(before), last) && entries == before + [last]
  {
    hide Insert;
  }

  lemma {:induction false} SortPermutes<T>(entries: seq<Entry<T>>)
    ensures multiset(Sorted(entries)) == multiset(entries) && |Sorted(entries)| == |entries|
  {
    if entries != [] {
      hide *;
      var before, last := entries[..|entries| - 1], entries[|entries| - 1];
      SortedStep(entries);
      SortPermutes(before);
      InsertPermutes(Sorted(before), last);
      Counts(last, before);
    }
  }

  lemma {:induction false} InsertOrders<T>(sorted: seq<Entry<T>>, e: Entry<T>)
    requires Ordered(sorted) && forall i :: 0 <= i < |sorted| ==> sorted[i].name != e.name
    ensures Ordered(Insert(sorted, e))
  {
    if sorted != [] {
      var rest := Insert(sorted[1..], e);
      if Before(e, sorted[0]) {
        forall j | 0 <= j < |sorted| ensures Before(e, sorted[j]) {
          if j > 0 {
            LessTransitive(EncodedTextKey(e.name), EncodedTextKey(sorted[0].name), EncodedTextKey(sorted[j].name));
          }
        }
      } else {
        InsertOrders(sorted[1..], e);
        InsertPermutes(sorted[1..], e);
        LessTotal(EncodedTextKey(e.name), EncodedTextKey(sorted[0].name));
        KeyInjective(e.name, sorted[0].name);
        forall j | 0 <= j < |rest| ensures Before(sorted[0], rest[j]) {
          assert rest[j] in multiset(rest);
          assert rest[j] in multiset(sorted[1..]) || rest[j] == e;
        }
      }
    }
  }

  /** With distinct names the sort is strictly ordered. */
  lemma {:induction false} SortOrders<T>(entries: seq<Entry<T>>)
    requires DistinctNames(entries)
    ensures Ordered(Sorted(entries))
  {
    if entries != [] {
      var last := |entries| - 1;
      var before := Sorted(entries[..last]);
      SortOrders(entries[..last]);
      SortPermutes(entries[..last]);
      forall i | 0 <= i < |before| ensures before[i].name != entries[last].name {
        assert before[i] in multiset(before);
        assert before[i] in multiset(entries[..last]);
      }
      InsertOrders(before, entries[last]);
    }
  }

  lemma SameFirst<T>(a: seq<Entry<T>>, b: seq<Entry<T>>)
    requires Ordered(a) && Ordered(b) && multiset(a) == multiset(b) && a != [] && b != []
    ensures a[0] == b[0]
  {
    assert a[0] in multiset(a) && b[0] in multiset(b);
    var i :| 0 <= i < |b| && b[i] == a[0];
    var j :| 0 <= j < |a| && a[j] == b[0];
    LessTotal(EncodedTextKey(a[0].name), EncodedTextKey(b[0].name));
    hide Less, EncodedTextKey;
    assert i > 0 ==> Before(b[0], b[i]);
    assert j > 0 ==> Before(a[0], a[j]);
  }

  lemma OrderedTail<T>(a: seq<Entry<T>>)
    requires Ordered(a) && a != []
    ensures Ordered(a[1..]) && a == [a[0]] + a[1..] && multiset(a) == multiset{a[0]} + multiset(a[1..])
  {
    Counts(a[0], a[1..]);
    assert a == [a[0]] + a[1..];
  }

  /** A strictly ordered arrangement of given entries is the only one. */
  lemma {:induction false} OrderedUnique<T>(a: seq<Entry<T>>, b: seq<Entry<T>>)
    requires Ordered(a) && Ordered(b) && multiset(a) == multiset(b)
    ensures a == b
    decreases |a|
  {
    hide *;
    assert |a| == |multiset(a)| && |b| == |multiset(b)|;
    if a != [] {
      SameFirst(a, b);
      OrderedTail(a);
      OrderedTail(b);
      Cancel(multiset{a[0]}, multiset(a[1..]), multiset(b[1..]));
      OrderedUnique(a[1..], b[1..]);
    }
  }

  /** Declaring the fields in another order sorts to the same members. */
  lemma SortIgnoresOrder<T>(a: seq<Entry<T>>, b: seq<Entry<T>>)
    requires DistinctNames(a) && multiset(a) == multiset(b)
    ensures Sorted(a) == Sorted(b)
  {
    DistinctPermutation(a, b);
    SortPermutes(a);
    SortPermutes(b);
    SortOrders(a);
    SortOrders(b);
    OrderedUnique(Sorted(a), Sorted(b));
  }

  lemma {:induction false} NamesOnce<T>(a: seq<Entry<T>>, x: Entry<T>, y: Entry<T>)
    requires DistinctNames(a) && x in a && y in a && x.name == y.name
    ensures x == y && multiset(a)[x] == 1
  {
    var i :| 0 <= i < |a| && a[i] == x;
    var j :| 0 <= j < |a| && a[j] == y;
    assert a == a[..i] + [a[i]] + a[i + 1..];
    assert x !in a[..i] && x !in a[i + 1..];
  }

  lemma CountedTwice<T>(s: seq<T>, i: nat, j: nat)
    requires i < j < |s| && s[i] == s[j]
    ensures multiset(s)[s[i]] >= 2
  {
    assert s == s[..i] + [s[i]] + s[i + 1..j] + [s[j]] + s[j + 1..];
  }

  lemma DistinctPermutation<T>(a: seq<Entry<T>>, b: seq<Entry<T>>)
    requires DistinctNames(a) && multiset(a) == multiset(b)
    ensures DistinctNames(b)
  {
    forall i, j | 0 <= i < j < |b| ensures b[i].name != b[j].name {
      assert b[i] in multiset(b) && b[j] in multiset(b);
      if b[i].name == b[j].name {
        NamesOnce(a, b[i], b[j]);
        CountedTwice(b, i, j);
      }
    }
  }

  function Mapped<T, U>(entries: seq<Entry<T>>, f: T -> U): seq<Entry<U>> {
    seq(|entries|, i requires 0 <= i < |entries| => Entry(entries[i].name, f(entries[i].item)))
  }

  lemma {:induction false} InsertMapped<T, U>(sorted: seq<Entry<T>>, e: Entry<T>, f: T -> U)
    ensures Mapped(Insert(sorted, e), f) == Insert(Mapped(sorted, f), Entry(e.name, f(e.item)))
  {
    if sorted != [] && !Before(e, sorted[0]) {
      InsertMapped(sorted[1..], e, f);
      assert Mapped(sorted, f)[1..] == Mapped(sorted[1..], f);
    }
  }

  /** Sorting looks at names alone, so it commutes with what the entries carry. */
  lemma {:induction false} SortMapped<T, U>(entries: seq<Entry<T>>, f: T -> U)
    ensures Mapped(Sorted(entries), f) == Sorted(Mapped(entries, f))
  {
    if entries != [] {
      var last := |entries| - 1;
      SortMapped(entries[..last], f);
      InsertMapped(Sorted(entries[..last]), entries[last], f);
      assert Mapped(entries, f)[..last] == Mapped(entries[..last], f);
    }
  }
}
