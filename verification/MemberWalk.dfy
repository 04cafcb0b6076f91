/**
 * The walk over an object's members. A name is settled against the input in place by the
 * decision tree; what the tree does not match is read, unescaped and switched on. The two
 * routes are proved to agree on every input, and the arm taken is that of the decoded name.
 */
module MemberWalk {
  import opened ByteStrings
  import opened KeyTree

  // --- The parser primitives the emitted walk calls ---

  datatype Error = Unterminated | BadEscape | BadUnicode | ControlCharacter | MissingColon

  datatype Scanned = Span(end: nat, escaped: bool) | Bad(error: Error)

  predicate IsHex(c: byte) {
    0x30 <= c <= 0x39 || 0x41 <= c <= 0x46 || 0x61 <= c <= 0x66
  }

  predicate IsHex4(s: bytes) {
    |s| == 4 && IsHex(s[0]) && IsHex(s[1]) && IsHex(s[2]) && IsHex(s[3])
  }

  predicate IsShortEscape(c: byte) {
    || c == 0x22 || c == 0x5C || c == 0x2F || c == 0x62
    || c == 0x66 || c == 0x6E || c == 0x72 || c == 0x74
  }

  /** Reads a string from just behind its opening quote to its closing one. */
  function Scan(buf: bytes, i: nat, escaped: bool): (r: Scanned)
    requires i <= |buf|
    ensures r.Span? ==> i <= r.end < |buf|
    decreases |buf| - i
  {
    if i == |buf| then Bad(Unterminated)
    else if buf[i] == QUOTE then Span(i, escaped)
    else if buf[i] == BACKSLASH then
      if i + 1 == |buf| then Bad(Unterminated)
      else if IsShortEscape(buf[i + 1]) then Scan(buf, i + 2, true)
      else if buf[i + 1] != 0x75 then Bad(BadEscape)
      else if i + 6 > |buf| || !IsHex4(buf[i + 2..i + 6]) then Bad(BadUnicode)
      else Scan(buf, i + 6, true)
    else if buf[i] < 0x20 then Bad(ControlCharacter)
    else Scan(buf, i + 1, escaped)
  }

  predicate IsSpace(c: byte) {
    c == 0x20 || c == 0x09 || c == 0x0A || c == 0x0D
  }

  /** The position behind the colon, white space before it included. */
  function Colon(buf: bytes, i: nat): (r: Option<nat>)
    requires i <= |buf|
    ensures r.Some? ==> i < r.value <= |buf|
    decreases |buf| - i
  {
    if i == |buf| then None
    else if buf[i] == 0x3A then Some(i + 1)
    else if IsSpace(buf[i]) then Colon(buf, i + 1)
    else None
  }

  /** The white space of section 2 of RFC 8259. */
  predicate White(c: byte) {
    c as char in " \t\n\r"
  }

  /** The colon found is the next character that is no white space. */
  lemma {:induction false} ColonExactly(buf: bytes, i: nat, j: nat)
    requires i <= |buf|
    ensures Colon(buf, i) == Some(j) <==>
            i < j <= |buf| && buf[j - 1] as char == ':' && forall h :: i <= h < j - 1 ==> White(buf[h])
    decreases |buf| - i
  {
    if i < |buf| {
      ColonExactly(buf, i + 1, j);
    }
  }

  function HexDigit(c: byte): (d: nat)
    requires IsHex(c)
    ensures d < 16
  {
    if c <= 0x39 then c - 0x30 else if c <= 0x46 then c - 0x41 + 10 else c - 0x61 + 10
  }

  function Hex4(s: bytes): (r: nat)
    requires IsHex4(s)
    ensures r < 0x10000
  {
    ((HexDigit(s[0]) * 16 + HexDigit(s[1])) * 16 + HexDigit(s[2])) * 16 + HexDigit(s[3])
  }

  /** UTF-8, a lone surrogate as the replacement character. */
  function Utf8(r: nat): bytes
    requires r < 0x110000
  {
    if r < 0x80 then [r]
    else if r < 0x800 then [0xC0 + r / 64, 0x80 + r % 64]
    else if 0xD800 <= r < 0xE000 then [0xEF, 0xBF, 0xBD]
    else if r < 0x10000 then [0xE0 + r / 4096, 0x80 + r / 64 % 64, 0x80 + r % 64]
    else [0xF0 + r / 262144, 0x80 + r / 4096 % 64, 0x80 + r / 64 % 64, 0x80 + r % 64]
  }

  predicate IsHigh(r: nat) { 0xD800 <= r < 0xDC00 }

  predicate IsLow(r: nat) { 0xDC00 <= r < 0xE000 }

  function Combine(hi: nat, lo: nat): (r: nat)
    requires IsHigh(hi) && IsLow(lo)
    ensures 0x10000 <= r < 0x110000
  {
    0x10000 + (hi - 0xD800) * 0x400 + (lo - 0xDC00)
  }

  function Unshort(c: byte): byte
    requires IsShortEscape(c)
  {
    if c == 0x62 then 0x08 else if c == 0x66 then 0x0C else if c == 0x6E then 0x0A
    else if c == 0x72 then 0x0D else if c == 0x74 then 0x09 else c
  }

  predicate UnicodeAt(src: bytes, i: nat) {
    && i + 6 <= |src| && src[i] == BACKSLASH && src[i + 1] == 0x75
    && IsHex4(src[i + 2..i + 6])
  }

  /** Resolves the escapes of a scanned span; a well-formed span reaches no other arm. */
  function Unescape(src: bytes): bytes {
    if src == [] then []
    else if src[0] != BACKSLASH then [src[0]] + Unescape(src[1..])
    else if |src| == 1 then []
    else if UnicodeAt(src, 0) then
      var r := Hex4(src[2..6]);
      if UnicodeAt(src, 6) && IsHigh(r) && IsLow(Hex4(src[8..12])) then
        Utf8(Combine(r, Hex4(src[8..12]))) + Unescape(src[12..])
      else Utf8(r) + Unescape(src[6..])
    else [if IsShortEscape(src[1]) then Unshort(src[1]) else src[1]] + Unescape(src[2..])
  }

  // --- One member: the emitted route, and the slow route alone ---

  datatype Outcome =
    | Member(idx: nat, pos: nat)
    | Consumed(pos: nat)
    | Unknown(name: bytes, pos: nat)
    | Failed(error: Error)

  /** The switch over decoded names. */
  function ArmOf(names: seq<bytes>, skipped: seq<bytes>, name: bytes, pos: nat): Outcome {
    if name in names then Member(IndexOf(names, name), pos)
    else if name in skipped then Consumed(pos)
    else Unknown(name, pos)
  }

  /** A name leads to the first field of that name, else to a member read over, else nowhere. */
  lemma ArmExactly(names: seq<bytes>, skipped: seq<bytes>, name: bytes, pos: nat)
    ensures var arm := ArmOf(names, skipped, name, pos);
            && (arm.Member? <==> exists i :: 0 <= i < |names| && names[i] == name)
            && (arm.Member? ==> arm.pos == pos && arm.idx < |names| && names[arm.idx] == name
                                && forall j :: 0 <= j < arm.idx ==> names[j] != name)
            && (arm == Consumed(pos) <==> name !in names && name in skipped)
            && (arm == Unknown(name, pos) <==> name !in names && name !in skipped)
  {
  }

  /** Reads the name and the colon, unescapes, and switches, with no tree in front. */
  function SlowRoute(names: seq<bytes>, skipped: seq<bytes>, buf: bytes, pos: nat): Outcome
    requires pos < |buf| && buf[pos] == QUOTE
  {
    match Scan(buf, pos + 1, false)
    case Bad(e) => Failed(e)
    case Span(end, escaped) =>
      match Colon(buf, end + 1)
      case None => Failed(MissingColon)
      case Some(next) =>
        var span := buf[pos + 1..end];
        ArmOf(names, skipped, if escaped then Unescape(span) else span, next)
  }

  /** Scanning a raw spelling of a tree-safe name stops at its closing quote, nothing escaped. */
  lemma {:induction false} ScanPlain(buf: bytes, i: nat, end: nat)
    requires i <= end < |buf| && buf[end] == QUOTE
    requires forall j :: i <= j < end ==> 0x20 <= buf[j] && buf[j] != QUOTE && buf[j] != BACKSLASH
    ensures Scan(buf, i, false) == Span(end, false)
    decreases end - i
  {
    if i < end {
      ScanPlain(buf, i + 1, end);
    }
  }

  lemma ChosenFound(names: seq<bytes>, input: bytes, found: Found)
    requires Chosen(names, Prefix, input, found) && found.idx >= 0
    ensures found.idx < |names| && TreeSafeName(names[found.idx]) && Quoted(names[found.idx]) <= input
    ensures found.k == |Quoted(names[found.idx])| == |names[found.idx]| + 2
  {
  }

  lemma SlowRouteIs(names: seq<bytes>, skipped: seq<bytes>, buf: bytes, pos: nat, end: nat, i: nat)
    requires pos < |buf| && buf[pos] == QUOTE && i < |names| && pos + 1 <= end < |buf|
    requires Scan(buf, pos + 1, false) == Span(end, false) && buf[pos + 1..end] == names[i] && IndexOf(names, names[i]) == i
    ensures SlowRoute(names, skipped, buf, pos) ==
            match Colon(buf, end + 1) case None => Failed(MissingColon) case Some(next) => Member(i, next)
  {
    hide Scan, Colon, Unescape, IndexOf;
  }

  /** What the tree finds at a member is the arm the slow route takes. */
  lemma TreeAgrees(names: seq<bytes>, skipped: seq<bytes>, buf: bytes, pos: nat, found: Found)
    requires Distinct(names) && pos < |buf| && buf[pos] == QUOTE && Chosen(names, Prefix, buf[pos..], found)
    ensures found.idx >= 0 ==> found.k >= 0 && pos + found.k <= |buf| && found.idx < |names|
    ensures found.idx >= 0 && Colon(buf, pos + found.k).None? ==> SlowRoute(names, skipped, buf, pos) == Failed(MissingColon)
    ensures found.idx >= 0 && Colon(buf, pos + found.k).Some? ==>
              SlowRoute(names, skipped, buf, pos) == Member(found.idx, Colon(buf, pos + found.k).value)
  {
    hide *;
    if found.idx >= 0 {
      ChosenFound(names, buf[pos..], found);
      FastAgrees(names, buf, pos, found.idx);
      SlowRouteIs(names, skipped, buf, pos, pos + |names[found.idx]| + 1, found.idx);
    }
  }

  /** The body of the emitted loop for one member: the tree first, the slow route on a miss. */
  method WalkMember(tree: seq<Stmt>, names: seq<bytes>, skipped: seq<bytes>, buf: bytes, pos: nat) returns (r: Outcome)
    requires Distinct(names) && pos < |buf| && buf[pos] == QUOTE
    requires forall input: bytes {:trigger Exec(tree, input, Found(-1, 0))} :: input != [] ==>
               Exec(tree, input, Found(-1, 0)).Some? &&
               Chosen(names, Prefix, input, Exec(tree, input, Found(-1, 0)).value)
    ensures r == SlowRoute(names, skipped, buf, pos)
  {
    hide Scan, Unescape, Colon, Exec, Chosen, IndexOf;
    var rest := buf[pos..];
    var found := Exec(tree, rest, Found(-1, 0)).value;
    TreeAgrees(names, skipped, buf, pos, found);
    if found.idx >= 0 {
      match Colon(buf, pos + found.k)
      case None => return Failed(MissingColon);
      case Some(next) => return Member(found.idx, next);
    }
    match Scan(buf, pos + 1, false)
    case Bad(e) => return Failed(e);
    case Span(end, escaped) =>
      match Colon(buf, end + 1)
      case None => return Failed(MissingColon);
      case Some(next) =>
        var key := buf[pos + 1..end];
        if escaped {
          key := Unescape(key);
        }
        var idx := IndexOf(names, key);
        if idx >= 0 {
          return Member(idx, next);
        }
        if key in skipped {
          return Consumed(next);
        }
        return Unknown(key, next);
  }

  /** A walk with the tree its own emitter compiled. */
  method Dispatch(names: seq<bytes>, skipped: seq<bytes>, buf: bytes, pos: nat) returns (r: Outcome)
    requires Distinct(names) && pos < |buf| && buf[pos] == QUOTE
    ensures r == SlowRoute(names, skipped, buf, pos)
  {
    var tree := CompileNames(names, Prefix);
    r := WalkMember(tree, names, skipped, buf, pos);
  }

  lemma FastAgrees(names: seq<bytes>, buf: bytes, pos: nat, i: nat)
    requires Distinct(names) && i < |names| && pos < |buf|
    requires TreeSafeName(names[i]) && Quoted(names[i]) <= buf[pos..]
    ensures pos + |Quoted(names[i])| <= |buf|
    ensures Scan(buf, pos + 1, false) == Span(pos + |names[i]| + 1, false)
    ensures buf[pos + 1..pos + |names[i]| + 1] == names[i] && IndexOf(names, names[i]) == i
  {
    var q := Quoted(names[i]);
    assert forall j :: 0 <= j < |q| ==> buf[pos + j] == buf[pos..][j] == q[j];
    var end := pos + |names[i]| + 1;
    assert buf[end] == q[|names[i]| + 1];
    forall j | pos + 1 <= j < end
      ensures buf[j] == names[i][j - pos - 1]
    {
      assert buf[pos + (j - pos)] == q[j - pos];
    }
    ScanPlain(buf, pos + 1, end);
    assert buf[pos + 1..end] == names[i];
  }

  // --- RFC 8259 section 7: what a spelled name denotes ---

  /** One production of the string grammar. */
  datatype Unit = Plain(b: byte) | Short(c: byte) | Unicode(hex: bytes)

  predicate ValidUnit(u: Unit) {
    match u
    case Plain(b) => b >= 0x20 && b != QUOTE && b != BACKSLASH
    case Short(c) => IsShortEscape(c)
    case Unicode(hex) => IsHex4(hex)
  }

  /** A name fits the tree when there is one and each byte of it is ASCII below DEL that spells itself. */
  lemma TreeSafeExactly(name: bytes)
    ensures TreeSafeName(name) <==>
            |name| > 0 && forall i :: 0 <= i < |name| ==> ValidUnit(Plain(name[i])) && name[i] as char <= '~'
  {
  }

  predicate ValidUnits(us: seq<Unit>) {
    forall i :: 0 <= i < |us| ==> ValidUnit(us[i])
  }

  function RenderUnit(u: Unit): bytes {
    match u
    case Plain(b) => [b]
    case Short(c) => [BACKSLASH, c]
    case Unicode(hex) => [BACKSLASH, 0x75] + hex
  }

  function Render(us: seq<Unit>): bytes {
    if us == [] then [] else RenderUnit(us[0]) + Render(us[1..])
  }

  const LOWER := "0123456789abcdef"
  const UPPER := "0123456789ABCDEF"

  /** What a hexadecimal digit stands for: its place among the digits, of either case. */
  function DigitValue(c: byte): int {
    var lower := IndexOf(LOWER, c as char);
    if lower >= 0 then lower else IndexOf(UPPER, c as char)
  }

  /** The code unit four digits spell, the most significant first. */
  function CodeUnit(hex: bytes): int
    requires |hex| == 4
  {
    4096 * DigitValue(hex[0]) + 256 * DigitValue(hex[1]) + 16 * DigitValue(hex[2]) + DigitValue(hex[3])
  }

  /** The characters with an escape of two characters. */
  const SHORT: map<char, int> :=
    map['"' := 0x22, '\\' := 0x5C, '/' := 0x2F, 'b' := 0x08, 'f' := 0x0C, 'n' := 0x0A, 'r' := 0x0D, 't' := 0x09]

  predicate Continues(c: byte) {
    0x80 <= c <= 0xBF
  }

  /** The code point at the front and its length, by the byte sequences of section 4 of RFC 3629. */
  function FirstPoint(s: bytes): Option<(int, nat)> {
    if |s| >= 1 && s[0] <= 0x7F then Some((s[0] as int, 1))
    else if |s| >= 2 && 0xC2 <= s[0] <= 0xDF && Continues(s[1]) then Some((Sixes(s[0] as int - 0xC0, [s[1]]), 2))
    else if |s| >= 3 && 0xE0 <= s[0] <= 0xEF && Continues(s[1]) && Continues(s[2])
            && (s[0] == 0xE0 ==> s[1] >= 0xA0) && (s[0] == 0xED ==> s[1] <= 0x9F) then
      Some((Sixes(s[0] as int - 0xE0, [s[1], s[2]]), 3))
    else if |s| >= 4 && 0xF0 <= s[0] <= 0xF4 && Continues(s[1]) && Continues(s[2]) && Continues(s[3])
            && (s[0] == 0xF0 ==> s[1] >= 0x90) && (s[0] == 0xF4 ==> s[1] <= 0x8F) then
      Some((Sixes(s[0] as int - 0xF0, [s[1], s[2], s[3]]), 4))
    else None
  }

  /** The bits of a lead byte and six more of each byte that continues it. */
  function Sixes(lead: int, more: bytes): int {
    if more == [] then lead else Sixes(lead, more[..|more| - 1]) * 64 + (more[|more| - 1] as int - 0x80)
  }

  /** Two code units encode a code point beyond 16 bits, by section 2.1 of RFC 2781. */
  predicate PairOf(hi: int, lo: int, point: int) {
    0x10000 <= point <= 0x10FFFF && hi == 0xD800 + (point - 0x10000) / 0x400 && lo == 0xDC00 + (point - 0x10000) % 0x400
  }

  predicate IsPair(hi: int, lo: int) {
    0xD800 <= hi <= 0xDBFF && 0xDC00 <= lo <= 0xDFFF
  }

  predicate StartsPair(us: seq<Unit>)
    requires ValidUnits(us)
  {
    |us| > 1 && us[0].Unicode? && us[1].Unicode? && IsPair(CodeUnit(us[0].hex), CodeUnit(us[1].hex))
  }

  const REPLACEMENT := 0xFFFD

  /**
   * The text a spelling denotes: each raw byte and each escaped character as itself, a pair of
   * surrogates as the code point it encodes, and a surrogate alone as the replacement character.
   */
  predicate Denotes(us: seq<Unit>, s: bytes)
    requires ValidUnits(us)
  {
    if us == [] then s == []
    else match us[0]
         case Plain(b) => s != [] && s[0] == b && Denotes(us[1..], s[1..])
         case Short(c) => s != [] && c as char in SHORT && s[0] == SHORT[c as char] && Denotes(us[1..], s[1..])
         case Unicode(hex) =>
           match FirstPoint(s)
           case None => false
           case Some((point, width)) =>
             if StartsPair(us) then
               PairOf(CodeUnit(hex), CodeUnit(us[1].hex), point) && width <= |s| && Denotes(us[2..], s[width..])
             else
               && point == (if 0xD800 <= CodeUnit(hex) <= 0xDFFF then REPLACEMENT else CodeUnit(hex))
               && width <= |s| && Denotes(us[1..], s[width..])
  }

  lemma HexDigitsAre(i: nat)
    requires i < 16
    ensures LOWER[i] as int == (if i < 10 then 0x30 + i else 0x57 + i)
    ensures UPPER[i] as int == (if i < 10 then 0x30 + i else 0x37 + i)
  {
  }

  lemma DigitValueIs(c: byte)
    ensures IsHex(c) <==> c as char in LOWER || c as char in UPPER
    ensures IsHex(c) ==> DigitValue(c) == HexDigit(c)
  {
    var lower, upper := IndexOf(LOWER, c as char), IndexOf(UPPER, c as char);
    if lower >= 0 {
      HexDigitsAre(lower);
    }
    if upper >= 0 {
      HexDigitsAre(upper);
    }
    if IsHex(c) {
      HexDigitsAre(HexDigit(c));
      assert LOWER[HexDigit(c)] as int == c || UPPER[HexDigit(c)] as int == c;
      assert LOWER[HexDigit(c)] == c as char || UPPER[HexDigit(c)] == c as char;
    }
  }

  /** Four digits of either case, the most significant first, are read as the number they spell. */
  lemma Hex4Reads(hex: bytes)
    requires IsHex4(hex)
    ensures Hex4(hex) == CodeUnit(hex)
  {
    DigitValueIs(hex[0]);
    DigitValueIs(hex[1]);
    DigitValueIs(hex[2]);
    DigitValueIs(hex[3]);
    hide IndexOf, DigitValue, HexDigit;
  }

  /** The escapes of two characters are those of section 7 of RFC 8259. */
  lemma ShortEscapes(c: byte)
    ensures IsShortEscape(c) <==> c as char in SHORT
    ensures IsShortEscape(c) ==> Unshort(c) == SHORT[c as char]
  {
  }

  /** A pair of surrogates is combined into the code point it encodes, and every such code point has one pair. */
  lemma Combines(hi: nat, lo: nat, point: int)
    requires IsPair(hi, lo)
    ensures PairOf(hi, lo, point) <==> point == Combine(hi, lo)
  {
  }

  lemma SixesOf(lead: int, a: byte, b: byte, c: byte)
    ensures Sixes(lead, [a]) == lead * 64 + (a - 0x80)
    ensures Sixes(lead, [a, b]) == (lead * 64 + (a - 0x80)) * 64 + (b - 0x80)
    ensures Sixes(lead, [a, b, c]) == ((lead * 64 + (a - 0x80)) * 64 + (b - 0x80)) * 64 + (c - 0x80)
  {
    assert [a][..0] == [] && [a, b][..1] == [a] && [a, b, c][..2] == [a, b];
    assert Sixes(lead, []) == lead;
  }

  /** A number in groups of six bits. */
  lemma Groups(r: nat)
    ensures r / 4096 == r / 64 / 64 && r / 262144 == r / 64 / 64 / 64
    ensures r == r / 64 * 64 + r % 64 && r / 64 == r / 4096 * 64 + r / 64 % 64
    ensures r / 4096 == r / 262144 * 64 + r / 4096 % 64
  {
  }

  lemma ByWidth(r: nat)
    requires r < 0x110000 && !(0xD800 <= r <= 0xDFFF)
    ensures var u := Utf8(r);
            && |u| == (if r < 0x80 then 1 else if r < 0x800 then 2 else if r < 0x10000 then 3 else 4)
            && FirstPoint(u) == Some((r, |u|))
  {
    var u := Utf8(r);
    Groups(r);
    hide Sixes;
    if r < 0x80 {
    } else if r < 0x800 {
      SixesOf(u[0] - 0xC0, u[1], 0x80, 0x80);
    } else if r < 0x10000 {
      SixesOf(u[0] - 0xE0, u[1], u[2], 0x80);
    } else {
      SixesOf(u[0] - 0xF0, u[1], u[2], u[3]);
    }
  }

  lemma FirstOf(u: bytes, t: bytes)
    requires FirstPoint(u).Some? && FirstPoint(u).value.1 == |u|
    ensures FirstPoint(u + t) == FirstPoint(u)
  {
    assert forall i :: 0 <= i < |u| ==> (u + t)[i] == u[i];
    hide Sixes;
  }

  /** UTF-8 is written in the sequences of RFC 3629 and read back as the code point; surrogates become the replacement. */
  lemma Utf8Reads(r: nat, t: bytes)
    requires r < 0x110000
    ensures FirstPoint(Utf8(r) + t) == Some((if 0xD800 <= r <= 0xDFFF then REPLACEMENT else r, |Utf8(r)|))
  {
    hide FirstPoint, Utf8;
    if 0xD800 <= r <= 0xDFFF {
      SurrogatesAlike(r);
      ByWidth(REPLACEMENT);
      FirstOf(Utf8(REPLACEMENT), t);
    } else {
      ByWidth(r);
      FirstOf(Utf8(r), t);
    }
  }

  lemma ReadTwo(a: byte, b: byte)
    requires 0xC2 <= a <= 0xDF && Continues(b)
    ensures var r := (a - 0xC0) * 64 + (b - 0x80); 0x80 <= r < 0x800 && Utf8(r) == [a, b]
  {
  }

  lemma ReadThree(a: byte, b: byte, c: byte)
    requires 0xE0 <= a <= 0xEF && Continues(b) && Continues(c) && (a == 0xE0 ==> b >= 0xA0) && (a == 0xED ==> b <= 0x9F)
    ensures var r := ((a - 0xE0) * 64 + (b - 0x80)) * 64 + (c - 0x80);
            0x800 <= r < 0x10000 && !(0xD800 <= r <= 0xDFFF) && Utf8(r) == [a, b, c]
  {
    var q := (a - 0xE0) * 64 + (b - 0x80);
    var r := q * 64 + (c - 0x80);
    Groups(r);
    assert r / 64 == q && r % 64 == c - 0x80;
    assert q / 64 == a - 0xE0 && q % 64 == b - 0x80;
  }

  lemma ReadFour(a: byte, b: byte, c: byte, d: byte)
    requires 0xF0 <= a <= 0xF4 && Continues(b) && Continues(c) && Continues(d)
    requires (a == 0xF0 ==> b >= 0x90) && (a == 0xF4 ==> b <= 0x8F)
    ensures var r := (((a - 0xF0) * 64 + (b - 0x80)) * 64 + (c - 0x80)) * 64 + (d - 0x80);
            0x10000 <= r < 0x110000 && Utf8(r) == [a, b, c, d]
  {
    var q := ((a - 0xF0) * 64 + (b - 0x80)) * 64 + (c - 0x80);
    var r := q * 64 + (d - 0x80);
    Groups(r);
    assert r / 64 == q && r % 64 == d - 0x80;
    assert q / 64 == (a - 0xF0) * 64 + (b - 0x80) && q % 64 == c - 0x80;
  }

  /** No other bytes are read as that code point. */
  lemma Utf8Only(s: bytes)
    requires FirstPoint(s).Some?
    ensures var (point, width) := FirstPoint(s).value;
            0 <= point < 0x110000 && width <= |s| && s[..width] == Utf8(point) && !(0xD800 <= point <= 0xDFFF)
  {
    hide Utf8, Sixes;
    if s[0] <= 0x7F {
      OneByte(s[0]);
    } else if s[0] <= 0xDF {
      SixesOf(s[0] - 0xC0, s[1], 0x80, 0x80);
      ReadTwo(s[0], s[1]);
    } else if s[0] <= 0xEF {
      SixesOf(s[0] - 0xE0, s[1], s[2], 0x80);
      ReadThree(s[0], s[1], s[2]);
    } else {
      SixesOf(s[0] - 0xF0, s[1], s[2], s[3]);
      ReadFour(s[0], s[1], s[2], s[3]);
    }
  }

  lemma OneByte(a: byte)
    requires a <= 0x7F
    ensures Utf8(a) == [a]
  {
  }

  /** An escape of a code unit, or of two that make a pair, is written as the code point it denotes. */
  lemma UnicodeResolves(us: seq<Unit>) returns (r: nat, rest: seq<Unit>)
    requires ValidUnits(us) && us != [] && us[0].Unicode?
    ensures r < 0x110000 && |rest| < |us| && ValidUnits(rest) && rest == us[if StartsPair(us) then 2 else 1..]
    ensures Resolved(us) == Utf8(r) + Resolved(rest)
    ensures StartsPair(us) ==> !(0xD800 <= r <= 0xDFFF) && forall point: int :: PairOf(CodeUnit(us[0].hex), CodeUnit(us[1].hex), point) <==> point == r
    ensures !StartsPair(us) ==> r == CodeUnit(us[0].hex)
  {
    Hex4Reads(us[0].hex);
    var hi := Hex4(us[0].hex);
    if |us| > 1 && us[1].Unicode? {
      Hex4Reads(us[1].hex);
      hide Hex4, CodeUnit, Utf8;
      var lo := Hex4(us[1].hex);
      if IsPair(hi, lo) {
        forall point: int ensures PairOf(hi, lo, point) <==> point == Combine(hi, lo) {
          Combines(hi, lo, point);
        }
        return Combine(hi, lo), us[2..];
      }
    }
    hide Hex4, CodeUnit, Utf8;
    r, rest := hi, us[1..];
  }

  lemma SurrogatesAlike(r: nat)
    requires 0xD800 <= r <= 0xDFFF
    ensures Utf8(r) == Utf8(REPLACEMENT)
  {
  }

  lemma UnicodeDenotes(us: seq<Unit>, s: bytes)
    requires ValidUnits(us) && us != [] && us[0].Unicode?
    ensures FirstPoint(s).None? ==> !Denotes(us, s)
    ensures FirstPoint(s).Some? ==>
              var (point, width) := FirstPoint(s).value;
              Denotes(us, s) <==>
              width <= |s| && Denotes(us[if StartsPair(us) then 2 else 1..], s[width..])
              && if StartsPair(us) then PairOf(CodeUnit(us[0].hex), CodeUnit(us[1].hex), point)
                 else point == if 0xD800 <= CodeUnit(us[0].hex) <= 0xDFFF then REPLACEMENT else CodeUnit(us[0].hex)
  {
    hide FirstPoint, CodeUnit;
  }

  lemma OneDenotes(us: seq<Unit>, s: bytes)
    requires ValidUnits(us) && us != [] && !us[0].Unicode?
    ensures us[0].Short? ==> IsShortEscape(us[0].c)
    ensures var b := if us[0].Plain? then us[0].b else Unshort(us[0].c);
            && Resolved(us) == [b] + Resolved(us[1..])
            && (Denotes(us, s) <==> s != [] && s[0] == b && Denotes(us[1..], s[1..]))
  {
    if us[0].Short? {
      ShortEscapes(us[0].c);
    }
    hide Unshort, IsShortEscape;
  }

  lemma NothingDenoted(us: seq<Unit>, s: bytes)
    requires ValidUnits(us)
    ensures us == [] ==> (Denotes(us, s) <==> s == [])
    ensures Denotes(us, []) <==> us == []
    ensures Resolved(us) == [] <==> us == []
  {
    if us != [] {
      if us[0].Unicode? {
        UnicodeDenotes(us, []);
        var r, rest := UnicodeResolves(us);
        assert |Utf8(r)| > 0;
      } else {
        OneDenotes(us, []);
      }
    }
  }

  /** The text denoted is the one the unescaping gives, and no other. */
  lemma {:induction false} DenotesExactly(us: seq<Unit>, s: bytes)
    requires ValidUnits(us)
    ensures Denotes(us, s) <==> s == Resolved(us)
    decreases |us|
  {
    hide *;
    NothingDenoted(us, s);
    if us != [] && s != [] {
      if us[0].Unicode? {
        var r, rest := UnicodeResolves(us);
        UnicodeDenotes(us, s);
        Utf8Reads(r, Resolved(rest));
        if 0xD800 <= r <= 0xDFFF {
          SurrogatesAlike(r);
        }
        if FirstPoint(s).Some? {
          var (point, width) := FirstPoint(s).value;
          Utf8Only(s);
          DenotesExactly(rest, s[width..]);
          assert (Utf8(r) + Resolved(rest))[|Utf8(r)|..] == Resolved(rest);
          assert s == s[..width] + s[width..];
        }
      } else {
        OneDenotes(us, s);
        TailUnits(us);
        DenotesExactly(us[1..], s[1..]);
        assert s == [s[0]] + s[1..];
      }
    }
  }

  lemma TailUnits(us: seq<Unit>)
    requires ValidUnits(us) && us != []
    ensures ValidUnits(us[1..])
  {
  }

  /** The bytes of the string, a surrogate pair as the one character it encodes. */
  function Resolved(us: seq<Unit>): bytes
    requires ValidUnits(us)
  {
    if us == [] then []
    else match us[0]
         case Plain(b) => [b] + Resolved(us[1..])
         case Short(c) => [Unshort(c)] + Resolved(us[1..])
         case Unicode(hex) =>
           if |us| > 1 && us[1].Unicode? && IsHigh(Hex4(hex)) && IsLow(Hex4(us[1].hex)) then
             Utf8(Combine(Hex4(hex), Hex4(us[1].hex))) + Resolved(us[2..])
           else Utf8(Hex4(hex)) + Resolved(us[1..])
  }

  lemma {:induction false} UnescapeResolves(us: seq<Unit>)
    requires ValidUnits(us)
    ensures Unescape(Render(us)) == Resolved(us)
  {
    if us != [] {
      var src, rest := Render(us), Render(us[1..]);
      assert src == RenderUnit(us[0]) + rest;
      UnescapeResolves(us[1..]);
      match us[0]
      case Plain(b) => assert src[1..] == rest;
      case Short(c) => assert src[2..] == rest;
      case Unicode(hex) =>
        assert src[6..] == rest && src[2..6] == hex && UnicodeAt(src, 0);
        if |us| > 1 {
          NextUnicode(us[1..]);
          assert UnicodeAt(src, 6) == UnicodeAt(rest, 0);
          if us[1].Unicode? {
            assert us[2..] == us[1..][1..];
            assert rest == RenderUnit(us[1]) + Render(us[2..]);
            assert src[8..12] == us[1].hex && src[12..] == Render(us[2..]);
            UnescapeResolves(us[2..]);
          }
        }
    }
  }

  /** Unescaping a spelling gives the text it denotes, and that text alone. */
  lemma UnescapeRender(us: seq<Unit>, s: bytes)
    requires ValidUnits(us)
    ensures Denotes(us, s) <==> s == Unescape(Render(us))
  {
    hide *;
    UnescapeResolves(us);
    DenotesExactly(us, s);
  }

  lemma NextUnicode(us: seq<Unit>)
    requires ValidUnits(us) && us != []
    ensures UnicodeAt(Render(us), 0) <==> us[0].Unicode?
  {
    var head, src := RenderUnit(us[0]), Render(us);
    assert src[0] == head[0];
    match us[0]
    case Plain(_) =>
    case Short(c) => assert src[1] == head[1];
    case Unicode(hex) =>
      assert src[1] == head[1];
      assert src[2..6] == hex;
  }

  predicate AnyEscape(us: seq<Unit>) {
    us != [] && (!us[0].Plain? || AnyEscape(us[1..]))
  }

  /** s stands in buf from position i. */
  predicate At(buf: bytes, i: nat, s: bytes) {
    i + |s| <= |buf| && buf[i..i + |s|] == s
  }

  lemma AtSplit(buf: bytes, i: nat, a: bytes, b: bytes)
    requires At(buf, i, a + b)
    ensures At(buf, i, a) && At(buf, i + |a|, b)
  {
    var s := buf[i..i + |a + b|];
    assert s[..|a|] == a && s[|a|..] == b;
    assert s[..|a|] == buf[i..i + |a|] && s[|a|..] == buf[i + |a|..i + |a| + |b|];
  }

  lemma ScanUnit(buf: bytes, i: nat, u: Unit, escaped: bool)
    requires ValidUnit(u) && At(buf, i, RenderUnit(u))
    ensures Scan(buf, i, escaped) == Scan(buf, i + |RenderUnit(u)|, escaped || !u.Plain?)
  {
    var s := buf[i..i + |RenderUnit(u)|];
    assert buf[i] == s[0];
    match u
    case Plain(_) =>
    case Short(_) => assert buf[i + 1] == s[1];
    case Unicode(hex) =>
      assert buf[i + 1] == s[1];
      assert buf[i + 2..i + 6] == s[2..6] == hex;
  }

  /** A spelled string is scanned to its closing quote, and the scan knows whether anything was escaped. */
  lemma {:induction false} ScanRender(buf: bytes, i: nat, us: seq<Unit>, escaped: bool)
    requires ValidUnits(us) && At(buf, i, Render(us) + [QUOTE])
    ensures Scan(buf, i, escaped) == Span(i + |Render(us)|, escaped || AnyEscape(us))
    decreases |us|
  {
    if us == [] {
      assert buf[i] == buf[i..i + 1][0];
    } else {
      assert Render(us) + [QUOTE] == RenderUnit(us[0]) + (Render(us[1..]) + [QUOTE]);
      AtSplit(buf, i, RenderUnit(us[0]), Render(us[1..]) + [QUOTE]);
      ScanUnit(buf, i, us[0], escaped);
      ScanRender(buf, i + |RenderUnit(us[0])|, us[1..], escaped || !us[0].Plain?);
    }
  }

  lemma {:induction false} PlainDenotes(us: seq<Unit>)
    requires ValidUnits(us) && !AnyEscape(us)
    ensures Resolved(us) == Render(us)
  {
    if us != [] {
      PlainDenotes(us[1..]);
    }
  }

  lemma SpanDenotes(buf: bytes, pos: nat, us: seq<Unit>)
    requires ValidUnits(us) && At(buf, pos, [QUOTE] + (Render(us) + [QUOTE]))
    ensures buf[pos] == QUOTE
    ensures pos + |Render(us)| + 2 <= |buf|
    ensures var end := pos + 1 + |Render(us)|;
            Scan(buf, pos + 1, false) == Span(end, AnyEscape(us)) && buf[pos + 1..end] == Render(us)
    ensures forall s: bytes :: Denotes(us, s) <==> s == if AnyEscape(us) then Unescape(Render(us)) else Render(us)
  {
    AtSplit(buf, pos, [QUOTE], Render(us) + [QUOTE]);
    AtSplit(buf, pos + 1, Render(us), [QUOTE]);
    assert buf[pos] == buf[pos..pos + 1][0];
    ScanRender(buf, pos + 1, us, false);
    UnescapeResolves(us);
    if !AnyEscape(us) {
      PlainDenotes(us);
    }
    hide Denotes, Resolved, Unescape, Render, Scan;
    forall s: bytes ensures Denotes(us, s) <==> s == Resolved(us) {
      DenotesExactly(us, s);
    }
  }

  /** However a name is spelled, the arm taken is the arm of the name it denotes. */
  lemma ArmOfDenotedName(names: seq<bytes>, skipped: seq<bytes>, buf: bytes, pos: nat, us: seq<Unit>, name: bytes)
    requires ValidUnits(us) && At(buf, pos, [QUOTE] + (Render(us) + [QUOTE])) && Denotes(us, name)
    ensures buf[pos] == QUOTE && pos + |Render(us)| + 2 <= |buf|
    ensures SlowRoute(names, skipped, buf, pos) ==
            match Colon(buf, pos + |Render(us)| + 2)
            case None => Failed(MissingColon)
            case Some(next) => ArmOf(names, skipped, name, next)
  {
    hide At, Render, Denotes, Unescape, Scan, Colon, ArmOf, AnyEscape, ValidUnits;
    SpanDenotes(buf, pos, us);
  }

  lemma UnitRead(buf: bytes, i: nat, escaped: bool) returns (u: Unit)
    requires i < |buf| && buf[i] != QUOTE && Scan(buf, i, escaped).Span?
    ensures ValidUnit(u) && At(buf, i, RenderUnit(u)) && |RenderUnit(u)| > 0
  {
    if buf[i] != BACKSLASH {
      u := Plain(buf[i]);
    } else if IsShortEscape(buf[i + 1]) {
      u := Short(buf[i + 1]);
    } else {
      u := Unicode(buf[i + 2..i + 6]);
    }
  }

  /** And whatever the reader accepts is a spelling: a scan that succeeds read units of the grammar. */
  lemma {:induction false} ScannedIsSpelled(buf: bytes, i: nat, escaped: bool) returns (us: seq<Unit>)
    requires i <= |buf| && Scan(buf, i, escaped).Span?
    ensures ValidUnits(us) && buf[i..Scan(buf, i, escaped).end] == Render(us)
    decreases |buf| - i
  {
    us := [];
    if buf[i] != QUOTE {
      var u := UnitRead(buf, i, escaped);
      var next := i + |RenderUnit(u)|;
      ScanUnit(buf, i, u, escaped);
      var rest := ScannedIsSpelled(buf, next, escaped || !u.Plain?);
      us := [u] + rest;
      RenderCons(u, rest);
      var end := Scan(buf, i, escaped).end;
      assert buf[i..end] == buf[i..next] + buf[next..end];
    }
  }

  lemma RenderCons(u: Unit, us: seq<Unit>)
    ensures Render([u] + us) == RenderUnit(u) + Render(us)
  {
    assert ([u] + us)[1..] == us;
  }
}
