/**
 * The argv parser. Printing a sequence of assignments and parsing it back gives the
 * assignments' effect: the last value of a scalar, every value of an array in order, and the
 * positional tokens in order ahead of the tail.
 */
module ArgvParser {
  import opened ByteStrings

  // --- Strings ---

  predicate IsSpace(c: char) {
    c == ' ' || 9 <= c as int <= 13
  }

  function TrimLeft(s: string): string {
    if s != [] && IsSpace(s[0]) then TrimLeft(s[1..]) else s
  }

  function TrimRight(s: string): string {
    if s != [] && IsSpace(s[|s| - 1]) then TrimRight(s[..|s| - 1]) else s
  }

  function Trim(s: string): string {
    TrimRight(TrimLeft(s))
  }

  function TrimPrefix(s: string, prefix: string): string {
    if prefix <= s then s[|prefix|..] else s
  }

  // --- Definitions ---

  datatype Kind = StringKind | BoolKind | ArrayKind

  datatype Def = Def(configKey: string, longs: seq<string>, shorts: seq<string>, kind: Kind)

  datatype Tables = Tables(byLong: map<string, Def>, byShort: map<string, Def>)

  function LongName(ln: string): string {
    TrimPrefix(Trim(ln), "--")
  }

  function ShortName(sh: string): string {
    TrimPrefix(Trim(sh), "-")
  }

  /** The flag names of one definition, as the loops register them. */
  method AddNames(d: Def, names: seq<string>, short: bool, table: map<string, Def>) returns (r: Option<map<string, Def>>)
    ensures r.Some? <==> NamesFit(names, short, table.Keys)
    ensures r.Some? ==> r.value.Keys == table.Keys + NameSet(names, short)
    ensures r.Some? ==> forall n :: n in r.value ==> r.value[n] == if n in table then table[n] else d
  {
    hide NamesFit, NameSet, NameOf;
    var t := table;
    NoNames(short, table.Keys);
    assert names[..0] == [];
    for i := 0 to |names|
      invariant NamesFit(names[..i], short, table.Keys)
      invariant t.Keys == table.Keys + NameSet(names[..i], short)
      invariant forall n :: n in t ==> t[n] == if n in table then table[n] else d
    {
      NamesStep(names, i, short, table.Keys);
      var name := NameOf(names[i], short);
      if (if short then |name| != 1 else name == "") || name in t {
        return None;
      }
      t := t[name := d];
    }
    assert names[..|names|] == names;
    return Some(t);
  }

  lemma NoNames(short: bool, taken: set<string>)
    ensures NamesFit([], short, taken) && NameSet([], short) == {}
  {
  }

  lemma NamesStep(names: seq<string>, i: nat, short: bool, taken: set<string>)
    requires i < |names|
    ensures NameSet(names[..i + 1], short) == NameSet(names[..i], short) + {NameOf(names[i], short)}
    ensures NamesFit(names[..i + 1], short, taken) <==>
            && NamesFit(names[..i], short, taken)
            && (if short then |NameOf(names[i], short)| == 1 else NameOf(names[i], short) != "")
            && NameOf(names[i], short) !in taken + NameSet(names[..i], short)
    ensures NamesFit(names, short, taken) ==> NamesFit(names[..i + 1], short, taken)
  {
    hide NameOf;
    assert names[..i + 1][..i] == names[..i];
    FitPrefix(names, short, taken, i + 1);
  }

  function NameOf(name: string, short: bool): string {
    if short then ShortName(name) else LongName(name)
  }

  function NameSet(names: seq<string>, short: bool): set<string> {
    if names == [] then {} else NameSet(names[..|names| - 1], short) + {NameOf(names[|names| - 1], short)}
  }

  /** Every name is well formed, new, and given once. */
  predicate NamesFit(names: seq<string>, short: bool, taken: set<string>) {
    names == [] ||
    var last := |names| - 1;
    var name := NameOf(names[last], short);
    && NamesFit(names[..last], short, taken)
    && (if short then |name| == 1 else name != "")
    && name !in taken + NameSet(names[..last], short)
  }

  lemma {:induction false} FitPrefix(names: seq<string>, short: bool, taken: set<string>, n: nat)
    requires n <= |names|
    ensures NamesFit(names, short, taken) ==> NamesFit(names[..n], short, taken)
    decreases |names|
  {
    if n < |names| {
      FitPrefix(names[..|names| - 1], short, taken, n);
      assert names[..|names| - 1][..n] == names[..n];
    } else {
      assert names[..n] == names;
    }
  }

  /** The definitions a parse accepts: keyed, named, and no name given twice. */
  predicate DefsFit(defs: seq<Def>) {
    defs == [] ||
    var last := |defs| - 1;
    var d := defs[last];
    && DefsFit(defs[..last])
    && d.configKey != "" && (d.longs != [] || d.shorts != [])
    && NamesFit(d.longs, false, Taken(defs[..last], false))
    && NamesFit(d.shorts, true, Taken(defs[..last], true))
  }

  function NamesIn(d: Def, short: bool): seq<string> {
    if short then d.shorts else d.longs
  }

  function Taken(defs: seq<Def>, short: bool): set<string> {
    if defs == [] then {}
    else Taken(defs[..|defs| - 1], short) + NameSet(NamesIn(defs[|defs| - 1], short), short)
  }

  lemma {:induction false} DefsPrefix(defs: seq<Def>, n: nat)
    requires n <= |defs|
    ensures DefsFit(defs) ==> DefsFit(defs[..n])
    decreases |defs|
  {
    if n < |defs| {
      DefsPrefix(defs[..|defs| - 1], n);
      assert defs[..|defs| - 1][..n] == defs[..n];
    } else {
      assert defs[..n] == defs;
    }
  }

  /** Each name in a table leads to the definition that gives it. */
  ghost predicate Leads(table: map<string, Def>, defs: seq<Def>, short: bool) {
    && table.Keys == Taken(defs, short)
    && forall n :: n in table ==> table[n] in defs && n in NameSet(NamesIn(table[n], short), short)
  }

  lemma LeadsNone(short: bool)
    ensures Leads(map[], [], short)
  {
  }

  lemma TakenSnoc(defs: seq<Def>, d: Def, short: bool)
    ensures Taken(defs + [d], short) == Taken(defs, short) + NameSet(NamesIn(d, short), short)
  {
    hide NameSet;
    assert (defs + [d])[..|defs|] == defs;
  }

  lemma LeadsStep(before: map<string, Def>, after: map<string, Def>, defs: seq<Def>, d: Def, short: bool)
    requires Leads(before, defs, short)
    requires after.Keys == before.Keys + NameSet(NamesIn(d, short), short)
    requires forall n :: n in after ==> after[n] == if n in before then before[n] else d
    ensures Leads(after, defs + [d], short)
  {
    hide NameSet, Taken, NamesIn;
    TakenSnoc(defs, d, short);
    forall n | n in after ensures after[n] in defs + [d] && n in NameSet(NamesIn(after[n], short), short) {
      if n in before {
        assert before[n] in defs;
      } else {
        assert n in NameSet(NamesIn(d, short), short);
      }
    }
  }

  lemma DefsStep(defs: seq<Def>, i: nat)
    requires i < |defs|
    ensures DefsFit(defs) ==> DefsFit(defs[..i + 1])
    ensures DefsFit(defs[..i + 1]) <==>
            && DefsFit(defs[..i])
            && defs[i].configKey != "" && (defs[i].longs != [] || defs[i].shorts != [])
            && NamesFit(defs[i].longs, false, Taken(defs[..i], false))
            && NamesFit(defs[i].shorts, true, Taken(defs[..i], true))
  {
    DefsPrefix(defs, i + 1);
    assert defs[..i + 1][..i] == defs[..i];
  }

  lemma LeadsKeys(table: map<string, Def>, defs: seq<Def>, short: bool)
    requires Leads(table, defs, short)
    ensures table.Keys == Taken(defs, short)
  {
  }

  method BuildTables(defs: seq<Def>) returns (r: Option<Tables>)
    ensures r.Some? <==> DefsFit(defs)
    ensures r.Some? ==> Leads(r.value.byLong, defs, false) && Leads(r.value.byShort, defs, true)
  {
    hide DefsFit, Leads, NamesFit, Taken, NameSet;
    var t := Tables(map[], map[]);
    LeadsNone(false);
    LeadsNone(true);
    NoDefs();
    for i := 0 to |defs|
      invariant DefsFit(defs[..i])
      invariant Leads(t.byLong, defs[..i], false) && Leads(t.byShort, defs[..i], true)
    {
      var d := defs[i];
      DefsStep(defs, i);
      LeadsKeys(t.byLong, defs[..i], false);
      LeadsKeys(t.byShort, defs[..i], true);
      if d.configKey == "" || (|d.longs| == 0 && |d.shorts| == 0) {
        return None;
      }
      var longs := AddNames(d, d.longs, false, t.byLong);
      if longs.None? {
        return None;
      }
      var shorts := AddNames(d, d.shorts, true, t.byShort);
      if shorts.None? {
        return None;
      }
      LeadsStep(t.byLong, longs.value, defs[..i], d, false);
      LeadsStep(t.byShort, shorts.value, defs[..i], d, true);
      assert defs[..i + 1] == defs[..i] + [d];
      t := Tables(longs.value, shorts.value);
    }
    assert defs[..|defs|] == defs;
    return Some(t);
  }

  lemma NoDefs()
    ensures DefsFit([])
  {
  }

  // --- Tokens ---

  predicate IsNumberStart(c: char) {
    '0' <= c <= '9'
  }

  predicate IsFlagToken(s: string) {
    && s != "-" && "-" <= s
    && !(|s| > 1 && IsNumberStart(s[1]))
    && !(|s| > 2 && s[1] == '.' && IsNumberStart(s[2]))
  }

  function ParseBool(s: string): Option<string> {
    var t := Lower(Trim(s));
    if t == "true" || t == "1" || t == "yes" || t == "y" then Some("true")
    else if t == "false" || t == "0" || t == "no" || t == "n" then Some("false")
    else None
  }

  /** A token is a flag when it begins with a dash, is no dash alone, and does not begin as a negative number does. */
  lemma FlagTokenExactly(s: string)
    ensures IsFlagToken(s) <==>
            "-" < s && forall d :: 0 <= d < |DIGITS| ==> !("-" + [DIGITS[d]] <= s) && !("-." + [DIGITS[d]] <= s)
  {
    DigitsInOrder('0');
    if |s| > 1 && IsNumberStart(s[1]) && s[0] == '-' {
      var d := s[1] as int - 0x30;
      assert DIGITS[d] == s[1] && "-" + [DIGITS[d]] <= s;
    }
    if |s| > 2 && s[1] == '.' && IsNumberStart(s[2]) && s[0] == '-' {
      var d := s[2] as int - 0x30;
      assert DIGITS[d] == s[2] && "-." + [DIGITS[d]] <= s;
    }
    forall d | 0 <= d < |DIGITS| && "-" + [DIGITS[d]] <= s ensures !IsFlagToken(s) {
      assert s[1] == DIGITS[d];
    }
    forall d | 0 <= d < |DIGITS| && "-." + [DIGITS[d]] <= s ensures !IsFlagToken(s) {
      assert ("-." + [DIGITS[d]])[1] == '.' && ("-." + [DIGITS[d]])[2] == DIGITS[d];
      assert s[1] == '.' && s[2] == DIGITS[d];
    }
  }

  const YES := {"true", "1", "yes", "y"}
  const NO := {"false", "0", "no", "n"}

  /** Four words stand for either truth value, in letters of either case and with space around them. */
  lemma BoolExactly(s: string)
    ensures ParseBool(s) == Some("true") <==> Lower(Trim(s)) in YES
    ensures ParseBool(s) == Some("false") <==> Lower(Trim(s)) in NO
    ensures ParseBool(s).None? <==> Lower(Trim(s)) !in YES + NO
  {
    hide Lower, Trim;
  }

  predicate Blank(s: string) {
    forall i :: 0 <= i < |s| ==> s[i] in {' ', '\t', '\n', '\r'} || s[i] as int in {0x0B, 0x0C}
  }

  lemma {:induction false} TrimLeftExactly(s: string) returns (before: string)
    ensures s == before + TrimLeft(s) && Blank(before)
    ensures TrimLeft(s) != [] ==> !Blank([TrimLeft(s)[0]])
  {
    before := [];
    if s != [] && IsSpace(s[0]) {
      var rest := TrimLeftExactly(s[1..]);
      before := [s[0]] + rest;
    } else if s != [] {
      assert [s[0]][0] == s[0];
    }
  }

  lemma {:induction false} TrimRightExactly(s: string) returns (behind: string)
    ensures s == TrimRight(s) + behind && Blank(behind)
    ensures TrimRight(s) != [] ==> !Blank([TrimRight(s)[|TrimRight(s)| - 1]]) && TrimRight(s)[0] == s[0]
  {
    behind := [];
    if s != [] && IsSpace(s[|s| - 1]) {
      var rest := TrimRightExactly(s[..|s| - 1]);
      behind := rest + [s[|s| - 1]];
    } else if s != [] {
      assert [s[|s| - 1]][0] == s[|s| - 1];
    }
  }

  /** Trimming takes the white space off both ends and nothing else. */
  lemma TrimExactly(s: string) returns (before: string, behind: string)
    ensures s == before + Trim(s) + behind && Blank(before) && Blank(behind)
    ensures Trim(s) != [] ==> !Blank([Trim(s)[0]]) && !Blank([Trim(s)[|Trim(s)| - 1]])
  {
    before := TrimLeftExactly(s);
    behind := TrimRightExactly(TrimLeft(s));
  }

  // --- Parsing ---

  datatype Result = Result(values: map<string, string>, multi: map<string, seq<string>>, rest: seq<string>)

  datatype Outcome = Parsed(result: Result) | Failed

  function SetResult(r: Result, d: Def, val: string): Result {
    match d.kind
    case ArrayKind =>
      var all := (if d.configKey in r.multi then r.multi[d.configKey] else []) + [val];
      r.(multi := r.multi[d.configKey := all], values := r.values[d.configKey := JoinBy(all, ',')])
    case BoolKind => r.(values := r.values[d.configKey := ParseBool(val).GetOr(val)])
    case StringKind => r.(values := r.values[d.configKey := val])
  }

  /** The value of a flag and how many tokens it took. */
  function TakeValue(args: seq<string>, d: Def, inline: Option<string>): Option<(string, nat)>
    requires args != []
  {
    if d.kind.BoolKind? then
      match inline
      case Some(v) => (match ParseBool(v) case Some(b) => Some((b, 1)) case None => None)
      case None => Some(("true", 1))
    else if inline.Some? then Some((inline.value, 1))
    else if |args| < 2 || IsFlagToken(args[1]) then None
    else Some((args[1], 2))
  }

  /** What one token does: it ends the parse, sets a flag and moves on, or is a positional. */
  datatype Move = Stop(rest: seq<string>) | Assign(d: Def, val: string, used: nat) | Positional | Bad

  function Classify(args: seq<string>, t: Tables, interspersed: bool): Move
    requires args != []
  {
    var a := args[0];
    if a == "--" then Stop(args[1..])
    else if interspersed && "-" <= a && !IsFlagToken(a) then Positional
    else if "--" <= a then
      var eq := IndexOf(a[2..], '=');
      var name := if eq >= 0 then a[2..][..eq] else a[2..];
      if name !in t.byLong then Bad
      else
        match TakeValue(args, t.byLong[name], if eq >= 0 then Some(a[2..][eq + 1..]) else None)
        case None => Bad
        case Some((val, used)) => Assign(t.byLong[name], val, used)
    else if "-" <= a && a != "-" then
      var sh := a[1..2];
      if sh !in t.byShort then Bad
      else
        var d, body := t.byShort[sh], a[2..];
        if body != "" then
          if d.kind.BoolKind? then
            match ParseBool(body)
            case None => Bad
            case Some(v) => Assign(d, v, 1)
          else Assign(d, body, 1)
        else
          match TakeValue(args, d, None)
          case None => Bad
          case Some((val, used)) => Assign(d, val, used)
    else if interspersed then Positional
    else Stop(args)
  }

  function ParseFrom(args: seq<string>, t: Tables, interspersed: bool, r: Result): Outcome {
    if args == [] then Parsed(r)
    else
      match Classify(args, t, interspersed)
      case Stop(rest) => Parsed(r.(rest := r.rest + rest))
      case Bad => Failed
      case Positional => ParseFrom(args[1..], t, interspersed, r.(rest := r.rest + [args[0]]))
      case Assign(d, val, used) =>
        if 0 < used <= |args| then ParseFrom(args[used..], t, interspersed, SetResult(r, d, val)) else Failed
  }

  /** The parse loop: an index over argv, the result updated as it goes. */
  method ParseTokens(args: seq<string>, t: Tables, interspersed: bool) returns (out: Outcome)
    ensures out == ParseFrom(args, t, interspersed, Result(map[], map[], []))
  {
    hide Classify, SetResult;
    var r := Result(map[], map[], []);
    var i := 0;
    assert args[0..] == args;
    while i < |args|
      invariant i <= |args|
      invariant ParseFrom(args, t, interspersed, Result(map[], map[], [])) == ParseFrom(args[i..], t, interspersed, r)
    {
      match Classify(args[i..], t, interspersed) {
        case Stop(rest) =>
          return Parsed(r.(rest := r.rest + rest));
        case Bad =>
          return Failed;
        case Positional =>
          assert args[i..][1..] == args[i + 1..];
          r := r.(rest := r.rest + [args[i]]);
          i := i + 1;
        case Assign(d, val, used) =>
          ClassifyUses(args[i..], t, interspersed);
          assert args[i..][used..] == args[i + used..];
          r := SetResult(r, d, val);
          i := i + used;
      }
    }
    return Parsed(r);
  }

  lemma ClassifyUses(args: seq<string>, t: Tables, interspersed: bool)
    requires args != []
    ensures Classify(args, t, interspersed).Assign? ==> 0 < Classify(args, t, interspersed).used <= |args|
  {
  }

  method Parse(args: seq<string>, defs: seq<Def>, interspersed: bool) returns (out: Outcome)
    ensures !DefsFit(defs) ==> out == Failed
    ensures DefsFit(defs) ==> exists t: Tables {:trigger ParseFrom(args, t, interspersed, Result(map[], map[], []))} ::
              Leads(t.byLong, defs, false) && Leads(t.byShort, defs, true) &&
              out == ParseFrom(args, t, interspersed, Result(map[], map[], []))
  {
    var tables := BuildTables(defs);
    if tables.None? {
      return Failed;
    }
    out := ParseTokens(args, tables.value, interspersed);
  }

  // --- Printing and parsing back ---

  datatype Item =
    | Inline(short: bool, name: string, value: string)
    | Separate(short: bool, name: string, value: string)
    | Bare(short: bool, name: string)
    | Word(token: string)

  /** The token a flag begins with. */
  function Dashed(short: bool, name: string): string {
    (if short then "-" else "--") + name
  }

  function PrintItem(item: Item): seq<string> {
    match item
    case Inline(short, name, value) => [Dashed(short, name) + (if short then "" else "=") + value]
    case Separate(short, name, value) => [Dashed(short, name), value]
    case Bare(short, name) => [Dashed(short, name)]
    case Word(token) => [token]
  }

  function Print(items: seq<Item>): seq<string> {
    if items == [] then [] else PrintItem(items[0]) + Print(items[1..])
  }

  function Names(t: Tables, short: bool): map<string, Def> {
    if short then t.byShort else t.byLong
  }

  predicate Nameable(short: bool, name: string, t: Tables) {
    && name in Names(t, short)
    && (if short then |name| == 1 && name != "-" else name != "" && forall i :: 0 <= i < |name| ==> name[i] != '=')
  }

  /** What can be printed: a bool inline with a bool spelling or bare, any other value inline or beside. */
  predicate Printable(item: Item, t: Tables, interspersed: bool) {
    match item
    case Inline(short, name, value) =>
      && Nameable(short, name, t) && (Names(t, short)[name].kind.BoolKind? ==> ParseBool(value).Some?)
      && (short ==> value != "" && (interspersed ==> IsFlagToken(Dashed(short, name) + value)))
    case Separate(short, name, value) =>
      && Nameable(short, name, t) && !Names(t, short)[name].kind.BoolKind? && !IsFlagToken(value)
      && (interspersed ==> IsFlagToken(Dashed(short, name)))
    case Bare(short, name) =>
      && Nameable(short, name, t) && Names(t, short)[name].kind.BoolKind?
      && (interspersed ==> IsFlagToken(Dashed(short, name)))
    case Word(token) => interspersed && !IsFlagToken(token)
  }

  predicate AllPrintable(items: seq<Item>, t: Tables, interspersed: bool) {
    forall i :: 0 <= i < |items| ==> Printable(items[i], t, interspersed)
  }

  predicate Known(item: Item, t: Tables) {
    !item.Word? && item.name in Names(t, item.short)
  }

  /** The value an item assigns. */
  function ValueOf(item: Item, t: Tables): string
    requires Known(item, t)
  {
    match item
    case Inline(short, name, value) => if Names(t, short)[name].kind.BoolKind? then ParseBool(value).GetOr(value) else value
    case Separate(_, _, value) => value
    case Bare(_, _) => "true"
  }

  function Effect(item: Item, t: Tables, r: Result): Result {
    if item.Word? then r.(rest := r.rest + [item.token])
    else if Known(item, t) then SetResult(r, Names(t, item.short)[item.name], ValueOf(item, t))
    else r
  }

  function Effects(items: seq<Item>, t: Tables, r: Result): Result {
    if items == [] then r else Effects(items[1..], t, Effect(items[0], t, r))
  }

  lemma IndexOfFirst(name: string, rest: string)
    requires forall i :: 0 <= i < |name| ==> name[i] != '='
    ensures IndexOf(name + "=" + rest, '=') == |name|
    ensures IndexOf(name, '=') == -1
  {
    var s := name + "=" + rest;
    assert s[|name|] == '=';
    assert forall i :: 0 <= i < |name| ==> s[i] == name[i];
  }

  lemma ClassifyInline(short: bool, name: string, value: string, more: seq<string>, t: Tables, interspersed: bool)
    requires Printable(Inline(short, name, value), t, interspersed)
    ensures var item := Inline(short, name, value);
            Classify(PrintItem(item) + more, t, interspersed) == Assign(Names(t, short)[name], ValueOf(item, t), 1)
  {
    var a := PrintItem(Inline(short, name, value))[0];
    if short {
      assert a[1..2] == name && a[2..] == value && a[0] == '-' && a[1] == name[0];
    } else {
      assert a[2..] == name + "=" + value;
      IndexOfFirst(name, value);
      assert a[2..][..|name|] == name && a[2..][|name| + 1..] == value;
      assert a[0] == '-' && a[1] == '-' && "-" <= a && "--" <= a;
    }
    hide IndexOf, ParseBool;
  }

  lemma ClassifyNamed(short: bool, name: string, more: seq<string>, t: Tables, interspersed: bool)
    requires Nameable(short, name, t) && (interspersed ==> IsFlagToken(Dashed(short, name)))
    ensures var args := [Dashed(short, name)] + more;
            Classify(args, t, interspersed) ==
            match TakeValue(args, Names(t, short)[name], None)
            case None => Bad
            case Some((val, used)) => Assign(Names(t, short)[name], val, used)
  {
    var a := Dashed(short, name);
    if short {
      assert a[1..2] == name && a[2..] == "" && a[0] == '-' && a[1] == name[0];
    } else {
      assert a[2..] == name;
      IndexOfFirst(name, "");
      assert a[0] == '-' && a[1] == '-' && "-" <= a && "--" <= a;
      assert |a| > 2;
    }
    hide IndexOf, TakeValue;
  }

  /** A printed item is read as what it assigns, whatever follows. */
  lemma ClassifyPrinted(item: Item, more: seq<string>, t: Tables, interspersed: bool)
    requires Printable(item, t, interspersed)
    ensures item.Word? ==> Classify(PrintItem(item) + more, t, interspersed) == Positional
    ensures !item.Word? ==> Known(item, t) && Classify(PrintItem(item) + more, t, interspersed) ==
                                              Assign(Names(t, item.short)[item.name], ValueOf(item, t), |PrintItem(item)|)
  {
    var args := PrintItem(item) + more;
    match item
    case Inline(short, name, value) => ClassifyInline(short, name, value, more, t, interspersed);
    case Separate(short, name, value) =>
      assert args == [Dashed(short, name)] + ([value] + more);
      ClassifyNamed(short, name, [value] + more, t, interspersed);
    case Bare(short, name) => ClassifyNamed(short, name, more, t, interspersed);
    case Word(token) =>
  }

  /** Reading a printed item back is its effect, whatever follows. */
  lemma ParseItem(item: Item, more: seq<string>, t: Tables, interspersed: bool, r: Result)
    requires Printable(item, t, interspersed)
    ensures ParseFrom(PrintItem(item) + more, t, interspersed, r) == ParseFrom(more, t, interspersed, Effect(item, t, r))
  {
    var args := PrintItem(item) + more;
    assert args[|PrintItem(item)|..] == more;
    ClassifyPrinted(item, more, t, interspersed);
    hide Classify, SetResult, ValueOf;
  }

  /** A token that is not the terminator is a flag, unless flags may follow positionals and it reads as a number. */
  predicate IsFlag(a: string, interspersed: bool) {
    if interspersed then IsFlagToken(a) else a != "-" && "-" <= a
  }

  lemma LongMoves(args: seq<string>, t: Tables, interspersed: bool)
    requires args != [] && "--" <= args[0] && args[0] != "--" && IsFlag(args[0], interspersed)
    ensures var text := args[0][2..];
            var eq := IndexOf(text, '=');
            var name, inline := if eq >= 0 then text[..eq] else text, if eq >= 0 then Some(text[eq + 1..]) else None;
            && (name !in t.byLong ==> Classify(args, t, interspersed) == Bad)
            && (name in t.byLong ==>
                  var taken := TakeValue(args, t.byLong[name], inline);
                  Classify(args, t, interspersed) == if taken.None? then Bad else Assign(t.byLong[name], taken.value.0, taken.value.1))
  {
    hide TakeValue, IndexOf;
  }

  lemma Rejoined(a: string, name: string, value: string)
    ensures "--" <= a && a[2..] == name ==> a == Dashed(false, name)
    ensures "--" <= a && a[2..] == name + "=" + value ==> a == Dashed(false, name) + "=" + value
    ensures "-" <= a && a[1..] == name + value ==> a == Dashed(true, name) + "" + value
  {
    if "--" <= a {
      assert a == a[..2] + a[2..];
    }
    if "-" <= a {
      assert a == a[..1] + a[1..];
    }
  }

  lemma LongInline(args: seq<string>, t: Tables, interspersed: bool, name: string, value: string)
    requires args != [] && args[0] == Dashed(false, name) + "=" + value && Nameable(false, name, t)
    requires t.byLong[name].kind.BoolKind? ==> ParseBool(value).Some?
    ensures Printable(Inline(false, name, value), t, interspersed) && PrintItem(Inline(false, name, value)) <= args
  {
    hide ParseBool, Nameable, Dashed;
    NameKnown(false, name, t);
  }

  lemma LongAlone(args: seq<string>, t: Tables, interspersed: bool, name: string) returns (item: Item)
    requires args != [] && args[0] == Dashed(false, name) && Nameable(false, name, t) && IsFlag(args[0], interspersed)
    requires name in t.byLong && TakeValue(args, t.byLong[name], None).Some?
    ensures Printable(item, t, interspersed) && !item.Word? && PrintItem(item) <= args
  {
    FlagAlone(args[0], name, interspersed);
    hide ParseBool, Nameable, Dashed, IsFlagToken, IsFlag;
    item := if t.byLong[name].kind.BoolKind? then Bare(false, name) else Separate(false, name, args[1]);
  }

  lemma NameKnown(short: bool, name: string, t: Tables)
    requires Nameable(short, name, t)
    ensures name in Names(t, short)
  {
  }

  lemma LongNamed(text: string, t: Tables)
    requires text != "" && "" !in t.byLong
    ensures var eq := IndexOf(text, '=');
            var name := if eq >= 0 then text[..eq] else text;
            && (name in t.byLong ==> Nameable(false, name, t))
            && (eq >= 0 ==> text == name + "=" + text[eq + 1..])
  {
  }

  lemma LongFlag(a: string, args: seq<string>, t: Tables, interspersed: bool) returns (item: Item)
    requires args != [] && args[0] == a && "--" <= a && a != "--" && IsFlag(a, interspersed) && "" !in t.byLong
    requires Classify(args, t, interspersed).Assign?
    ensures Printable(item, t, interspersed) && !item.Word? && PrintItem(item) <= args
  {
    LongMoves(args, t, interspersed);
    LongNamed(a[2..], t);
    hide Classify, ParseBool, IsFlagToken, IsFlag, IndexOf, Nameable, Printable, PrintItem, Dashed;
    var eq := IndexOf(a[2..], '=');
    var name := if eq >= 0 then a[2..][..eq] else a[2..];
    if eq >= 0 {
      var value := a[2..][eq + 1..];
      Rejoined(a, name, value);
      LongInline(args, t, interspersed, name, value);
      return Inline(false, name, value);
    }
    Rejoined(a, name, "");
    hide TakeValue;
    item := LongAlone(args, t, interspersed, name);
  }

  lemma FlagAlone(a: string, name: string, interspersed: bool)
    requires IsFlag(a, interspersed) && a == Dashed(false, name)
    ensures interspersed ==> IsFlagToken(Dashed(false, name))
  {
  }

  lemma ShortMoves(args: seq<string>, t: Tables, interspersed: bool)
    requires args != [] && !("--" <= args[0]) && IsFlag(args[0], interspersed)
    ensures |args[0]| > 1 && "-" <= args[0] && args[0][1..2] != "-"
    ensures var sh, body := args[0][1..2], args[0][2..];
            && (sh !in t.byShort ==> Classify(args, t, interspersed) == Bad)
            && (sh in t.byShort && body == "" ==>
                  var taken := TakeValue(args, t.byShort[sh], None);
                  Classify(args, t, interspersed) == if taken.None? then Bad else Assign(t.byShort[sh], taken.value.0, taken.value.1))
            && (sh in t.byShort && body != "" ==>
                  Classify(args, t, interspersed) ==
                  if !t.byShort[sh].kind.BoolKind? then Assign(t.byShort[sh], body, 1)
                  else if ParseBool(body).None? then Bad else Assign(t.byShort[sh], ParseBool(body).value, 1))
  {
    hide TakeValue, IndexOf, ParseBool;
  }

  lemma ShortFlag(a: string, args: seq<string>, t: Tables, interspersed: bool) returns (item: Item)
    requires args != [] && args[0] == a && !("--" <= a) && IsFlag(a, interspersed)
    requires Classify(args, t, interspersed).Assign?
    ensures Printable(item, t, interspersed) && !item.Word? && PrintItem(item) <= args
  {
    ShortMoves(args, t, interspersed);
    hide Classify, ParseBool, IsFlagToken;
    var sh, body := a[1..2], a[2..];
    assert a[1..] == sh + body;
    Rejoined(a, sh, body);
    if body != "" {
      return Inline(true, sh, body);
    }
    assert a == Dashed(true, sh);
    item := if t.byShort[sh].kind.BoolKind? then Bare(true, sh) else Separate(true, sh, args[1]);
  }

  /** The flag at the front, in one of the ways a flag is written, if it is written in one. */
  ghost predicate Written(args: seq<string>, item: Item, t: Tables, interspersed: bool) {
    !item.Word? && Printable(item, t, interspersed) && PrintItem(item) <= args
  }

  /**
   * What the first token does, exactly: the terminator ends the parse, and so does the first
   * positional unless flags may follow them; a flag assigns what some way of writing it says, and
   * is refused when it is written in none.
   */
  lemma ClassifyExactly(args: seq<string>, t: Tables, interspersed: bool)
    requires args != [] && "" !in t.byLong
    ensures args[0] == "--" ==> Classify(args, t, interspersed) == Stop(args[1..])
    ensures args[0] != "--" && !IsFlag(args[0], interspersed) ==>
              Classify(args, t, interspersed) == if interspersed then Positional else Stop(args)
    ensures args[0] != "--" && IsFlag(args[0], interspersed) ==>
              && (Classify(args, t, interspersed).Bad? <==> forall item :: !Written(args, item, t, interspersed))
              && forall item :: Written(args, item, t, interspersed) ==>
                   Known(item, t) && Classify(args, t, interspersed) ==
                                     Assign(Names(t, item.short)[item.name], ValueOf(item, t), |PrintItem(item)|)
  {
    var a := args[0];
    if a == "--" {
    } else if !IsFlag(a, interspersed) {
      NoFlag(args, t, interspersed);
    } else {
      FlagMoves(args, t, interspersed);
      if Classify(args, t, interspersed).Assign? {
        if "--" <= a {
          var item := LongFlag(a, args, t, interspersed);
          assert Written(args, item, t, interspersed);
        } else {
          var item := ShortFlag(a, args, t, interspersed);
          assert Written(args, item, t, interspersed);
        }
      }
      hide Classify, IsFlag, IsFlagToken, PrintItem, Printable, ValueOf;
      forall item | Written(args, item, t, interspersed)
        ensures Known(item, t) && Classify(args, t, interspersed) ==
                                  Assign(Names(t, item.short)[item.name], ValueOf(item, t), |PrintItem(item)|)
      {
        assert args == PrintItem(item) + args[|PrintItem(item)|..];
        ClassifyPrinted(item, args[|PrintItem(item)|..], t, interspersed);
      }
    }
  }

  lemma NoFlag(args: seq<string>, t: Tables, interspersed: bool)
    requires args != [] && args[0] != "--" && !IsFlag(args[0], interspersed)
    ensures Classify(args, t, interspersed) == if interspersed then Positional else Stop(args)
  {
  }

  lemma FlagMoves(args: seq<string>, t: Tables, interspersed: bool)
    requires args != [] && args[0] != "--" && IsFlag(args[0], interspersed)
    ensures Classify(args, t, interspersed).Assign? || Classify(args, t, interspersed).Bad?
  {
    hide ParseBool, TakeValue, IndexOf;
  }

  /** Printed items, then the terminator and any tail, parse to the items' effects and that tail. */
  lemma {:induction false} ParsePrinted(items: seq<Item>, tail: seq<string>, t: Tables, interspersed: bool, r: Result)
    requires AllPrintable(items, t, interspersed)
    ensures ParseFrom(Print(items) + ["--"] + tail, t, interspersed, r) ==
            Parsed(Effects(items, t, r).(rest := Effects(items, t, r).rest + tail))
    ensures ParseFrom(Print(items), t, interspersed, r) == Parsed(Effects(items, t, r))
  {
    if items == [] {
      assert (["--"] + tail)[1..] == tail;
      assert [] + ["--"] + tail == ["--"] + tail;
    } else {
      hide ParseFrom, PrintItem, Effect;
      assert Print(items) + ["--"] + tail == PrintItem(items[0]) + (Print(items[1..]) + ["--"] + tail);
      ParseItem(items[0], Print(items[1..]) + ["--"] + tail, t, interspersed, r);
      ParseItem(items[0], Print(items[1..]), t, interspersed, r);
      ParsePrinted(items[1..], tail, t, interspersed, Effect(items[0], t, r));
    }
  }

  // --- What the effects amount to ---

  function Words(items: seq<Item>): seq<string> {
    if items == [] then []
    else Words(items[..|items| - 1]) + if items[|items| - 1].Word? then [items[|items| - 1].token] else []
  }

  predicate Sets(item: Item, t: Tables, key: string) {
    Known(item, t) && Names(t, item.short)[item.name].configKey == key
  }

  /** The values assigned to one config key, in order. */
  function ValuesFor(items: seq<Item>, t: Tables, key: string): seq<string> {
    if items == [] then []
    else
      var last := items[|items| - 1];
      ValuesFor(items[..|items| - 1], t, key) + if Sets(last, t, key) then [ValueOf(last, t)] else []
  }

  /** Every flag that sets the key collects an array, or none does. */
  predicate KeyHasKind(t: Tables, key: string, isArray: bool) {
    forall short, n :: n in Names(t, short) && Names(t, short)[n].configKey == key ==> Names(t, short)[n].kind.ArrayKind? == isArray
  }

  lemma {:induction false} EffectsSnoc(items: seq<Item>, item: Item, t: Tables, r: Result)
    ensures Effects(items + [item], t, r) == Effect(item, t, Effects(items, t, r))
  {
    if items == [] {
      assert [item][1..] == [];
    } else {
      assert (items + [item])[1..] == items[1..] + [item];
      EffectsSnoc(items[1..], item, t, Effect(items[0], t, r));
    }
  }

  /** A scalar key holds its last value and no list; an array key holds every value and their comma join. */
  predicate Holds(r: Result, all: seq<string>, key: string, isArray: bool) {
    && (key in r.values <==> all != [])
    && (key in r.multi <==> isArray && all != [])
    && (all != [] && !isArray ==> r.values[key] == all[|all| - 1])
    && (all != [] && isArray ==> r.multi[key] == all && r.values[key] == JoinBy(all, ','))
  }

  lemma HoldsSet(r: Result, all: seq<string>, d: Def, val: string, key: string, isArray: bool)
    requires d.configKey == key && d.kind.ArrayKind? == isArray && Holds(r, all, key, isArray)
    requires d.kind.BoolKind? ==> ParseBool(val) == Some(val)
    ensures Holds(SetResult(r, d, val), all + [val], key, isArray)
  {
    hide JoinBy, ParseBool;
    if isArray && all == [] {
      assert [] + [val] == all + [val];
    }
  }

  lemma HoldsStill(r: Result, all: seq<string>, d: Def, val: string, key: string, isArray: bool)
    requires d.configKey != key && Holds(r, all, key, isArray)
    ensures Holds(SetResult(r, d, val), all, key, isArray)
  {
    hide JoinBy, ParseBool;
  }

  lemma HoldsStep(r: Result, all: seq<string>, item: Item, t: Tables, interspersed: bool, key: string, isArray: bool)
    requires Printable(item, t, interspersed) && KeyHasKind(t, key, isArray) && Holds(r, all, key, isArray)
    ensures Holds(Effect(item, t, r), all + if Sets(item, t, key) then [ValueOf(item, t)] else [], key, isArray)
  {
    BoolStays(item, t, interspersed);
    hide Printable, ParseBool, ValueOf, SetResult;
    if item.Word? {
      HoldsRest(r, r.rest + [item.token], all, key, isArray);
      assert all + [] == all;
    } else if Known(item, t) {
      var d := Names(t, item.short)[item.name];
      hide Holds;
      if d.configKey == key {
        HoldsSet(r, all, d, ValueOf(item, t), key, isArray);
      } else {
        HoldsStill(r, all, d, ValueOf(item, t), key, isArray);
        assert all + [] == all;
      }
    }
  }

  lemma HoldsRest(r: Result, rest: seq<string>, all: seq<string>, key: string, isArray: bool)
    requires Holds(r, all, key, isArray)
    ensures Holds(r.(rest := rest), all, key, isArray)
  {
    hide JoinBy;
  }

  lemma EffectRest(item: Item, t: Tables, r: Result)
    ensures Effect(item, t, r).rest == r.rest + if item.Word? then [item.token] else []
  {
    hide JoinBy, ParseBool, ValueOf;
    assert r.rest + [] == r.rest;
  }

  lemma WordsStep(items: seq<Item>, t: Tables, key: string)
    requires items != []
    ensures var last := items[|items| - 1];
            && Words(items) == Words(items[..|items| - 1]) + (if last.Word? then [last.token] else [])
            && ValuesFor(items, t, key) ==
               ValuesFor(items[..|items| - 1], t, key) + if Sets(last, t, key) then [ValueOf(last, t)] else []
  {
    hide ValueOf, Sets;
  }

  lemma NoEffects(t: Tables, key: string, isArray: bool)
    ensures var r := Result(map[], map[], []);
            Effects([], t, r) == r && Words([]) == [] && Holds(r, ValuesFor([], t, key), key, isArray)
  {
  }

  /** Every key holds what the items assign to it, and the positionals are all there, in order. */
  lemma {:induction false} EffectsMean(items: seq<Item>, t: Tables, interspersed: bool, key: string, isArray: bool)
    requires AllPrintable(items, t, interspersed) && KeyHasKind(t, key, isArray)
    ensures Effects(items, t, Result(map[], map[], [])).rest == Words(items)
    ensures Holds(Effects(items, t, Result(map[], map[], [])), ValuesFor(items, t, key), key, isArray)
  {
    if items == [] {
      NoEffects(t, key, isArray);
    } else {
      var last, first := |items| - 1, items[..|items| - 1];
      assert AllPrintable(first, t, interspersed) && Printable(items[last], t, interspersed);
      hide *;
      var r := Effects(first, t, Result(map[], map[], []));
      assert items == first + [items[last]];
      EffectsSnoc(first, items[last], t, Result(map[], map[], []));
      EffectsMean(first, t, interspersed, key, isArray);
      WordsStep(items, t, key);
      EffectRest(items[last], t, r);
      HoldsStep(r, ValuesFor(first, t, key), items[last], t, interspersed, key, isArray);
    }
  }

  /**
   * The round trip: parsing what was printed, with or without a tail behind "--", gives each key
   * the values assigned to it and the positionals followed by the tail.
   */
  lemma RoundTrip(items: seq<Item>, tail: seq<string>, t: Tables, interspersed: bool, key: string, isArray: bool)
    requires AllPrintable(items, t, interspersed) && KeyHasKind(t, key, isArray)
    ensures ParseFrom(Print(items), t, interspersed, Result(map[], map[], [])).Parsed?
    ensures ParseFrom(Print(items) + ["--"] + tail, t, interspersed, Result(map[], map[], [])).Parsed?
    ensures var r := ParseFrom(Print(items), t, interspersed, Result(map[], map[], [])).result;
            var s := ParseFrom(Print(items) + ["--"] + tail, t, interspersed, Result(map[], map[], [])).result;
            s.values == r.values && s.multi == r.multi && s.rest == r.rest + tail && r.rest == Words(items)
    ensures var r := ParseFrom(Print(items), t, interspersed, Result(map[], map[], [])).result;
            Holds(r, ValuesFor(items, t, key), key, isArray)
  {
    hide *;
    ParsePrinted(items, tail, t, interspersed, Result(map[], map[], []));
    EffectsMean(items, t, interspersed, key, isArray);
  }

  /** A bool's value is already in its canonical spelling when it is stored. */
  lemma BoolStays(item: Item, t: Tables, interspersed: bool)
    requires Printable(item, t, interspersed)
    ensures Known(item, t) && Names(t, item.short)[item.name].kind.BoolKind? ==>
              ParseBool(ValueOf(item, t)) == Some(ValueOf(item, t))
  {
    Canonical();
  }

  lemma Canonical()
    ensures ParseBool("true") == Some("true") && ParseBool("false") == Some("false")
  {
    assert Trim("true") == "true" && Trim("false") == "false";
    assert Lower("true") == "true" && Lower("false") == "false";
  }
}
