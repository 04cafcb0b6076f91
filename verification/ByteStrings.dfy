/** Byte strings, as the emitters and the wire formats see them, and a few functions on them. */
module ByteStrings {
  type byte = n: int | 0 <= n < 256

  type bytes = seq<byte>

  /** One past the largest signed 64-bit number. */
  const I64: int := 0x8000_0000_0000_0000

  datatype Option<+T> = None | Some(value: T) {
    function GetOr(default: T): T {
      match this
      case None => default
      case Some(v) => v
    }
  }

  /** Where an element first is, or -1. */
  function IndexOf<T(==)>(s: seq<T>, c: T): (i: int)
    ensures i == -1 || (0 <= i < |s| && s[i] == c)
    ensures forall j :: 0 <= j < (if i < 0 then |s| else i) ==> s[j] != c
  {
    if s == [] then -1
    else if s[0] == c then 0
    else var i := IndexOf(s[1..], c); if i < 0 then -1 else i + 1
  }

  const COMMA: byte := 0x2C

  /** The parts with one separator between each and the next. */
  function JoinBy<T>(parts: seq<seq<T>>, separator: T): seq<T> {
    if parts == [] then []
    else
      var last := |parts| - 1;
      JoinBy(parts[..last], separator) + (if last == 0 then [] else [separator]) + parts[last]
  }

  /** The texts joined by single commas. */
  function Join(parts: seq<bytes>): bytes {
    JoinBy(parts, COMMA)
  }

  /** The parts one after another. */
  function Concat<T>(parts: seq<seq<T>>): seq<T> {
    if parts == [] then [] else parts[0] + Concat(parts[1..])
  }

  lemma {:induction false} ConcatSnoc<T>(chunks: seq<seq<T>>, run: seq<T>)
    ensures Concat(chunks + [run]) == Concat(chunks) + run
  {
    if chunks == [] {
      assert Concat([run]) == run + Concat([]);
    } else {
      assert (chunks + [run])[1..] == chunks[1..] + [run];
      ConcatSnoc(chunks[1..], run);
    }
  }

  predicate IsDigit(b: byte) {
    0x30 <= b <= 0x39
  }

  function Decimal(n: nat): (r: bytes)
    ensures r != [] && forall i :: 0 <= i < |r| ==> IsDigit(r[i])
  {
    if n < 10 then [0x30 + n] else Decimal(n / 10) + [0x30 + n % 10]
  }

  function Power10(k: nat): nat {
    if k == 0 then 1 else 10 * Power10(k - 1)
  }

  /** A number written in base ten, its most significant digit first. */
  function Weighted10(s: bytes): int {
    if s == [] then 0 else (s[0] as int - 0x30) * Power10(|s| - 1) + Weighted10(s[1..])
  }

  lemma {:induction false} Weighted10Snoc(s: bytes, x: byte)
    ensures Weighted10(s + [x]) == 10 * Weighted10(s) + (x as int - 0x30)
  {
    if s == [] {
      assert ([] + [x])[1..] == [];
    } else {
      assert (s + [x])[1..] == s[1..] + [x];
      Weighted10Snoc(s[1..], x);
      assert (s[0] as int - 0x30) * (10 * Power10(|s| - 1)) == 10 * ((s[0] as int - 0x30) * Power10(|s| - 1));
    }
  }

  /** A number is written in base ten, most significant digit first and no zero ahead of it. */
  lemma {:induction false} DecimalReads(n: nat)
    ensures Weighted10(Decimal(n)) == n && (n > 0 ==> Decimal(n)[0] != 0x30) && (n == 0 ==> |Decimal(n)| == 1)
  {
    if n < 10 {
      assert Decimal(n)[1..] == [];
    } else {
      DecimalReads(n / 10);
      Weighted10Snoc(Decimal(n / 10), 0x30 + n % 10);
    }
  }

  function Chars(b: bytes): string {
    seq(|b|, i requires 0 <= i < |b| => b[i] as char)
  }

  /** ASCII lower case. */
  function Lower(s: string): string {
    seq(|s|, i requires 0 <= i < |s| => if 'A' <= s[i] <= 'Z' then s[i] - 'A' + 'a' else s[i])
  }

  const CAPITALS := "ABCDEFGHIJKLMNOPQRSTUVWXYZ"
  const SMALL := "abcdefghijklmnopqrstuvwxyz"

  lemma LettersAre(i: nat)
    requires i < 26
    ensures CAPITALS[i] as int == 0x41 + i && SMALL[i] as int == 0x61 + i
  {
  }

  const DIGITS := "0123456789"

  lemma DigitsInOrder(c: char)
    ensures c in DIGITS <==> '0' <= c <= '9'
    ensures forall d :: 0 <= d < |DIGITS| ==> DIGITS[d] as int == 0x30 + d
  {
    forall d | 0 <= d < |DIGITS| ensures DIGITS[d] as int == 0x30 + d {
    }
    if '0' <= c <= '9' {
      assert DIGITS[c as int - 0x30] == c;
    }
  }

  /** Each capital becomes the small letter in its place in the alphabet, and nothing else changes. */
  lemma LowerExactly(s: string, i: nat)
    requires i < |s|
    ensures |Lower(s)| == |s| && (s[i] !in CAPITALS ==> Lower(s)[i] == s[i])
    ensures forall j :: 0 <= j < 26 && s[i] == CAPITALS[j] ==> Lower(s)[i] == SMALL[j]
  {
    forall j | 0 <= j < 26 && s[i] == CAPITALS[j] ensures Lower(s)[i] == SMALL[j] {
      LettersAre(j);
    }
    if 'A' <= s[i] <= 'Z' {
      LettersAre(s[i] as int - 0x41);
      assert CAPITALS[s[i] as int - 0x41] == s[i];
    }
  }

  /** The separator of composite and digested keys. */
  const NUL: string := ['\0']

  predicate NulFree(s: string) {
    forall i :: 0 <= i < |s| ==> s[i] != '\0'
  }

  /** A NUL-free text ends at the first NUL behind it. */
  lemma SplitAtFirst(a: string, x: string, b: string, y: string)
    requires NulFree(a) && NulFree(b) && a + NUL + x == b + NUL + y
    ensures a == b && x == y
  {
    var s, t := a + NUL + x, b + NUL + y;
    assert s[|a|] == '\0' && t[|b|] == '\0';
    assert forall i :: 0 <= i < |a| ==> s[i] == a[i];
    assert forall i :: 0 <= i < |b| ==> t[i] == b[i];
    assert a == s[..|a|] && b == t[..|b|] && x == s[|a| + 1..] && y == t[|b| + 1..];
  }

  /** A NUL-free text begins at the last NUL ahead of it. */
  lemma SplitAtLast(a: string, x: string, b: string, y: string)
    requires NulFree(x) && NulFree(y) && a + NUL + x == b + NUL + y
    ensures a == b && x == y
  {
    var s, t := a + NUL + x, b + NUL + y;
    assert s[|a|] == '\0' && t[|b|] == '\0';
    assert forall i :: |a| < i < |s| ==> s[i] == x[i - |a| - 1];
    assert forall i :: |b| < i < |t| ==> t[i] == y[i - |b| - 1];
    assert a == s[..|a|] && b == t[..|b|] && x == s[|a| + 1..] && y == t[|b| + 1..];
  }

  /** Lexicographic order, a proper prefix first. */
  predicate Less(a: seq<int>, b: seq<int>) {
    if b == [] then false
    else if a == [] then true
    else if a[0] != b[0] then a[0] < b[0]
    else Less(a[1..], b[1..])
  }

  lemma {:induction false} LessTotal(a: seq<int>, b: seq<int>)
    ensures Less(a, b) || a == b || Less(b, a)
    ensures !(Less(a, b) && Less(b, a))
    ensures a == b ==> !Less(a, b)
    decreases |a|
  {
    if a != [] && b != [] && a[0] == b[0] {
      LessTotal(a[1..], b[1..]);
      assert a == [a[0]] + a[1..] && b == [b[0]] + b[1..];
    }
  }

  lemma {:induction false} LessTransitive(a: seq<int>, b: seq<int>, c: seq<int>)
    requires Less(a, b) && Less(b, c)
    ensures Less(a, c)
    decreases |a|
  {
    if a != [] && a[0] == b[0] == c[0] {
      LessTransitive(a[1..], b[1..], c[1..]);
    }
  }

  predicate Ascends(keys: seq<bytes>) {
    forall i, j :: 0 <= i < j < |keys| ==> Less(keys[i], keys[j])
  }

  function InsertKey(sorted: seq<bytes>, key: bytes): (r: seq<bytes>)
    requires Ascends(sorted) && key !in sorted
    ensures Ascends(r) && forall k :: k in r <==> k == key || k in sorted
  {
    if sorted == [] then [key]
    else
      LessTotal(key, sorted[0]);
      if Less(key, sorted[0]) then
        AscendsBefore(key, sorted);
        [key] + sorted
      else
        var rest := InsertKey(sorted[1..], key);
        assert forall i :: 0 <= i < |rest| ==> rest[i] == key || rest[i] in sorted[1..];
        [sorted[0]] + rest
  }

  lemma AscendsBefore(key: bytes, sorted: seq<bytes>)
    requires Ascends(sorted) && sorted != [] && Less(key, sorted[0])
    ensures Ascends([key] + sorted)
  {
    forall j | 0 < j < |sorted| ensures Less(key, sorted[j]) {
      LessTransitive(key, sorted[0], sorted[j]);
    }
  }

  /** A map's keys in bytewise order. */
  ghost function SortedKeys(keys: set<bytes>): (r: seq<bytes>)
    ensures Ascends(r) && forall k :: k in r <==> k in keys
  {
    if keys == {} then []
    else
      var k :| k in keys;
      InsertKey(SortedKeys(keys - {k}), k)
  }

  lemma TailKeys(a: seq<bytes>)
    requires Ascends(a) && a != []
    ensures Ascends(a[1..]) && forall k :: k in a[1..] <==> k in a && k != a[0]
  {
    LessTotal(a[0], a[0]);
    assert a == [a[0]] + a[1..];
    forall i | 0 < i < |a| ensures a[i] != a[0] {
      assert Less(a[0], a[i]);
    }
  }

  /** Keys in order are the only arrangement of their kind. */
  lemma {:induction false} SortedUnique(a: seq<bytes>, b: seq<bytes>)
    requires Ascends(a) && Ascends(b) && forall k :: k in a <==> k in b
    ensures a == b
    decreases |a|
  {
    assert b != [] ==> b[0] in a;
    if a != [] {
      assert a[0] in b;
      var i :| 0 <= i < |b| && b[i] == a[0];
      var j :| 0 <= j < |a| && a[j] == b[0];
      LessTotal(a[0], b[0]);
      hide Less;
      TailKeys(a);
      TailKeys(b);
      SortedUnique(a[1..], b[1..]);
      assert a == [a[0]] + a[1..] && b == [b[0]] + b[1..];
    }
  }
}
