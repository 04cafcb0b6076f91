/**
 * Layered loading: defaults, the TOML document with its references expanded, the composed
 * environment, the command line, and the falsy fill. Two environments that differ only in
 * non-empty values of secret origin load to overlays that differ only in entries so marked.
 */
module ConfigLoad {
  import opened ByteStrings
  import opened ConfigOverlay
  import opened Interpolate

  // --- The composed environment ---

  /** A source of variables: a dotenv file, or a secret directory, whose variables have their own paths. */
  datatype Source = Source(values: map<bytes, bytes>, paths: map<bytes, string>, secret: bool)

  datatype Environ = Environ(env: Environment, files: map<bytes, string>)

  function Names(c: Environ): set<bytes> {
    c.env.values.Keys
  }

  /** Every variable of a source laid over what is there, its mark of origin with it. */
  function LayOver(c: Environ, s: Source): Environ {
    Environ(Environment(c.env.values + s.values, if s.secret then c.env.secret + s.values.Keys else c.env.secret - s.values.Keys),
            c.files + s.paths)
  }

  function LayAll(sources: seq<Source>): Environ {
    if sources == [] then Environ(Environment(map[], {}), map[])
    else LayOver(LayAll(sources[..|sources| - 1]), sources[|sources| - 1])
  }

  /** The process over every file: its names lose their file and their mark. */
  function Composed(sources: seq<Source>, process: map<bytes, bytes>): Environ {
    var c := LayAll(sources);
    Environ(Environment(c.env.values + process, c.env.secret - process.Keys), c.files - process.Keys)
  }

  /** Each path set covers the source's names. */
  predicate WellFormed(sources: seq<Source>) {
    forall i :: 0 <= i < |sources| ==> sources[i].paths.Keys == sources[i].values.Keys
  }

  /** The last source that defines a name. */
  function Winner(sources: seq<Source>, name: bytes): Option<Source> {
    if sources == [] then None
    else if name in sources[|sources| - 1].values then Some(sources[|sources| - 1])
    else Winner(sources[..|sources| - 1], name)
  }

  lemma {:induction false} LayAllWins(sources: seq<Source>, name: bytes)
    requires WellFormed(sources)
    ensures var c, w := LayAll(sources), Winner(sources, name);
            && (name in c.env.values <==> w.Some?) && (name in c.files <==> w.Some?)
            && (name in c.env.secret <==> w.Some? && w.value.secret)
            && (w.Some? ==> name in w.value.values && name in w.value.paths
                            && c.env.values[name] == w.value.values[name] && c.files[name] == w.value.paths[name])
  {
    if sources != [] {
      LayAllWins(sources[..|sources| - 1], name);
    }
  }

  /** The process wins over every source, the last source over the rest, and origin follows the winner. */
  lemma ComposedWins(sources: seq<Source>, process: map<bytes, bytes>, name: bytes)
    requires WellFormed(sources)
    ensures var c, w := Composed(sources, process), Winner(sources, name);
            && (name in c.env.values <==> name in process || w.Some?)
            && (name in process ==> c.env.values[name] == process[name] && name !in c.files && name !in c.env.secret)
            && (name !in process && w.Some? ==>
                  && name in w.value.values && name in w.value.paths
                  && c.env.values[name] == w.value.values[name]
                  && name in c.files && c.files[name] == w.value.paths[name]
                  && (name in c.env.secret <==> w.value.secret))
            && (name in c.env.secret ==> name !in process && w.Some? && w.value.secret)
  {
    LayAllWins(sources, name);
  }

  lemma AddOne<K, V>(m: map<K, V>, s: map<K, V>, left: set<K>, name: K)
    requires left <= s.Keys && name in left
    ensures (m + (s - left))[name := s[name]] == m + (s - (left - {name}))
    ensures m + (s - s.Keys) == m && s - {} == s
  {
  }

  lemma TakeOne<K, V>(m: map<K, V>, all: set<K>, left: set<K>, name: K)
    requires left <= all && name in left
    ensures m - (all - left) - {name} == m - (all - (left - {name}))
  {
  }

  lemma MarkOne<K>(m: set<K>, all: set<K>, left: set<K>, name: K)
    requires left <= all && name in left
    ensures m + (all - left) + {name} == m + (all - (left - {name}))
    ensures m - (all - left) - {name} == m - (all - (left - {name}))
  {
  }

  /** One source's variables, in whatever order its map gives them. */
  method Lay(c: Environ, s: Source) returns (r: Environ)
    requires s.paths.Keys == s.values.Keys
    ensures r == LayOver(c, s)
  {
    var values, files, secret := c.env.values, c.files, c.env.secret;
    var left := s.values.Keys;
    assert s.values - left == map[] && s.paths - left == map[];
    while left != {}
      invariant left <= s.values.Keys
      invariant values == c.env.values + (s.values - left)
      invariant files == c.files + (s.paths - left)
      invariant secret == if s.secret then c.env.secret + (s.values.Keys - left) else c.env.secret - (s.values.Keys - left)
      decreases left
    {
      var name :| name in left;
      AddOne(c.env.values, s.values, left, name);
      AddOne(c.files, s.paths, left, name);
      MarkOne(c.env.secret, s.values.Keys, left, name);
      values := values[name := s.values[name]];
      files := files[name := s.paths[name]];
      secret := if s.secret then secret + {name} else secret - {name};
      left := left - {name};
    }
    assert s.values - {} == s.values && s.paths - {} == s.paths && s.values.Keys - {} == s.values.Keys;
    r := Environ(Environment(values, secret), files);
  }

  /** The process over the sources: its names lose their file and their mark. */
  method LayProcess(c: Environ, process: map<bytes, bytes>) returns (r: Environ)
    ensures r == Environ(Environment(c.env.values + process, c.env.secret - process.Keys), c.files - process.Keys)
  {
    var values, files, secret := c.env.values, c.files, c.env.secret;
    var left := process.Keys;
    assert process - left == map[];
    while left != {}
      invariant left <= process.Keys
      invariant values == c.env.values + (process - left)
      invariant files == c.files - (process.Keys - left)
      invariant secret == c.env.secret - (process.Keys - left)
      decreases left
    {
      var name :| name in left;
      AddOne(c.env.values, process, left, name);
      TakeOne(c.files, process.Keys, left, name);
      MarkOne(c.env.secret, process.Keys, left, name);
      values := values[name := process[name]];
      files := files - {name};
      secret := secret - {name};
      left := left - {name};
    }
    assert process - {} == process && process.Keys - {} == process.Keys;
    r := Environ(Environment(values, secret), files);
  }

  /** The composition as it runs: the sources in order, then the process over them. */
  method ComposeEnviron(sources: seq<Source>, process: map<bytes, bytes>) returns (c: Environ)
    requires WellFormed(sources)
    ensures c == Composed(sources, process)
  {
    c := Environ(Environment(map[], {}), map[]);
    for i := 0 to |sources|
      invariant c == LayAll(sources[..i])
    {
      assert sources[..i + 1][..i] == sources[..i];
      c := Lay(c, sources[i]);
    }
    assert sources[..|sources|] == sources;
    c := LayProcess(c, process);
  }

  // --- The document layer ---

  datatype Element = Element(isString: bool, text: bytes)

  /** A document value; Refused is one with no scalar or list form. */
  datatype TomlValue =
    | StringValue(text: bytes)
    | PlainValue(text: bytes)
    | ArrayValue(elements: seq<Element>)
    | TablesValue(tables: seq<Document>)
    | Refused

  datatype Item = Item(key: Key, value: TomlValue)

  datatype Document = Document(items: seq<Item>)

  datatype Expansions = Expansions(texts: seq<bytes>, secret: bool)

  /** A list's elements, the strings among them expanded; any secret one makes the list secret. */
  function ExpandAll(elements: seq<Element>, env: Environment): Option<Expansions> {
    if elements == [] then Some(Expansions([], false))
    else
      var last := |elements| - 1;
      match ExpandAll(elements[..last], env)
      case None => None
      case Some(before) =>
        if !elements[last].isString then Some(Expansions(before.texts + [elements[last].text], before.secret))
        else
          match MeaningOf(elements[last].text, env)
          case Failed(_) => None
          case Expanded(text, secret) => Some(Expansions(before.texts + [text], before.secret || secret))
  }

  /** What one element is listed as: a string as it expands, anything else as it stands. */
  predicate ElementText(element: Element, env: Environment, text: bytes) {
    if element.isString then MeaningOf(element.text, env).Expanded? && MeaningOf(element.text, env).text == text
    else element.text == text
  }

  predicate SecretElement(element: Element, env: Environment) {
    element.isString && MeaningOf(element.text, env).Expanded? && MeaningOf(element.text, env).secret
  }

  /** A list expands exactly when each of its strings does, into one text an element in their order, secret when some string is. */
  lemma {:induction false} ExpandAllExactly(elements: seq<Element>, env: Environment)
    ensures ExpandAll(elements, env).Some? <==>
            forall i :: 0 <= i < |elements| && elements[i].isString ==> MeaningOf(elements[i].text, env).Expanded?
    ensures ExpandAll(elements, env).Some? ==>
              var x := ExpandAll(elements, env).value;
              && |x.texts| == |elements| && (forall i :: 0 <= i < |elements| ==> ElementText(elements[i], env, x.texts[i]))
              && (x.secret <==> exists i :: 0 <= i < |elements| && SecretElement(elements[i], env))
  {
    hide MeaningOf;
    if elements != [] {
      var last := |elements| - 1;
      ExpandAllExactly(elements[..last], env);
      assert forall i :: 0 <= i < last ==> elements[..last][i] == elements[i];
      if ExpandAll(elements, env).Some? && ExpandAll(elements[..last], env).value.secret {
        var i :| 0 <= i < last && SecretElement(elements[..last][i], env);
        assert SecretElement(elements[i], env);
      }
    }
  }

  function ItemEntry(v: TomlValue, env: Environment): Option<Entry> {
    match v
    case Refused => None
    case PlainValue(text) => Some(Scalar(text, FILE))
    case StringValue(text) =>
      (match MeaningOf(text, env)
       case Failed(_) => None
       case Expanded(t, secret) => Some(Scalar(t, FILE).(secret := secret)))
    case ArrayValue(elements) =>
      (match ExpandAll(elements, env)
       case None => None
       case Some(x) => Some(Multi(x.texts, FILE).(secret := x.secret)))
    case TablesValue(tables) =>
      match TableSlots(tables, env)
      case None => None
      case Some(ts) => Some(Tables(ts, FILE))
  }

  function TableSlots(tables: seq<Document>, env: Environment): Option<seq<Table>>
    decreases tables
  {
    if tables == [] then Some([])
    else
      match MergeItems([], tables[0].items, env)
      case None => None
      case Some(first) =>
        match TableSlots(tables[1..], env)
        case None => None
        case Some(rest) => Some([Table(first)] + rest)
  }

  /** The overlay after a document's values, in document order. */
  function MergeItems(slots: Slots, items: seq<Item>, env: Environment): Option<Slots>
    decreases items
  {
    if items == [] then Some(slots)
    else
      match ItemEntry(items[0].value, env)
      case None => None
      case Some(e) => MergeItems(Put(slots, items[0].key, e), items[1..], env)
  }

  /** Tables are read one by one, each as a document of its own, and refused when one of them is. */
  lemma {:induction false} TableSlotsExactly(tables: seq<Document>, env: Environment)
    ensures TableSlots(tables, env).Some? <==> forall i :: 0 <= i < |tables| ==> MergeItems([], tables[i].items, env).Some?
    ensures TableSlots(tables, env).Some? ==>
              && |TableSlots(tables, env).value| == |tables|
              && forall i :: 0 <= i < |tables| ==>
                   MergeItems([], tables[i].items, env) == Some(TableSlots(tables, env).value[i].slots)
  {
    hide MergeItems;
    if tables != [] {
      TableSlotsExactly(tables[1..], env);
      assert forall i :: 1 <= i < |tables| ==> tables[1..][i - 1] == tables[i];
    }
  }

  /**
   * A document's value is refused exactly when it has no form or some text in it does not expand;
   * otherwise it is an entry of the file, marked exactly when a secret was expanded into it.
   */
  lemma ItemEntryExactly(v: TomlValue, env: Environment)
    ensures v.StringValue? ==> (ItemEntry(v, env).Some? <==> MeaningOf(v.text, env).Expanded?)
    ensures v.ArrayValue? ==> (ItemEntry(v, env).Some? <==> ExpandAll(v.elements, env).Some?)
    ensures v.TablesValue? ==> (ItemEntry(v, env).Some? <==> TableSlots(v.tables, env).Some?)
    ensures v.PlainValue? ==> ItemEntry(v, env).Some?
    ensures v.Refused? ==> ItemEntry(v, env).None?
    ensures ItemEntry(v, env).Some? ==>
              var e := ItemEntry(v, env).value;
              && e.place == FILE && (e.isTables <==> v.TablesValue?) && (e.multi.Some? <==> v.ArrayValue?)
              && (e.secret <==> (v.StringValue? && MeaningOf(v.text, env).secret)
                                || (v.ArrayValue? && exists i :: 0 <= i < |v.elements| && SecretElement(v.elements[i], env)))
              && (v.PlainValue? ==> e.raw == v.text) && (v.StringValue? ==> e.raw == MeaningOf(v.text, env).text)
              && (v.ArrayValue? ==> e.multi.value == ExpandAll(v.elements, env).value.texts && e.raw == Join(e.multi.value))
              && (v.TablesValue? ==> e.tables == TableSlots(v.tables, env).value)
  {
    if v.ArrayValue? {
      ExpandAllExactly(v.elements, env);
    }
    hide MeaningOf, ExpandAll, TableSlots, Join, SecretElement;
  }

  /** A document is taken exactly when each of its values is. */
  lemma {:induction false} MergeItemsExactly(slots: Slots, items: seq<Item>, env: Environment)
    ensures MergeItems(slots, items, env).Some? <==> forall i :: 0 <= i < |items| ==> ItemEntry(items[i].value, env).Some?
    decreases |items|
  {
    hide ItemEntry;
    if items != [] {
      assert forall i :: 1 <= i < |items| ==> items[1..][i - 1] == items[i];
      if ItemEntry(items[0].value, env).Some? {
        MergeItemsExactly(Put(slots, items[0].key, ItemEntry(items[0].value, env).value), items[1..], env);
      }
    }
  }

  // --- The other layers ---

  /** A field's flag: its config key and the variable that sets it, if any. */
  datatype Flag = Flag(key: Key, variable: Option<bytes>)

  function EnvEntry(name: bytes, c: Environ): Entry
    requires name in c.env.values
  {
    Scalar(c.env.values[name], if name in c.files then ENV_FILE + c.files[name] else ENV).(secret := name in c.env.secret)
  }

  /** A variable's entry has its value, the file it was read from or none, and the mark of a secret source. */
  lemma EnvEntryExactly(name: bytes, c: Environ)
    requires name in c.env.values
    ensures var e := EnvEntry(name, c);
            && e.raw == c.env.values[name] && e.multi.None? && !e.isTables && (e.secret <==> name in c.env.secret)
            && e.place == if name in c.files then "file_env:" + c.files[name] else "env"
  {
  }

  function MergeEnv(slots: Slots, flags: seq<Flag>, c: Environ): Slots {
    if flags == [] then slots
    else
      var before, f := MergeEnv(slots, flags[..|flags| - 1], c), flags[|flags| - 1];
      if f.variable.Some? && f.variable.value in c.env.values then Put(before, f.key, EnvEntry(f.variable.value, c)) else before
  }

  datatype Scalars = Scalars(key: Key, text: bytes)
  datatype Lists = Lists(key: Key, texts: seq<bytes>)

  function MergeScalars(slots: Slots, values: seq<Scalars>, place: string): Slots {
    if values == [] then slots
    else Put(MergeScalars(slots, values[..|values| - 1], place), values[|values| - 1].key, Scalar(values[|values| - 1].text, place))
  }

  function MergeLists(slots: Slots, values: seq<Lists>, place: string): Slots {
    if values == [] then slots
    else Put(MergeLists(slots, values[..|values| - 1], place), values[|values| - 1].key, Multi(values[|values| - 1].texts, place))
  }

  /** What Load reads of a bound definition. */
  datatype Target = Target(knownKeys: seq<Key>, defaults: map<Key, bytes>, falsy: map<Key, bytes>)

  function Defaults(slots: Slots, t: Target, n: nat): Slots
    requires n <= |t.knownKeys|
  {
    if n == 0 then slots
    else
      var before, k := Defaults(slots, t, n - 1), t.knownKeys[n - 1];
      if k in t.defaults then Put(before, k, Scalar(t.defaults[k], DEFAULT)) else before
  }

  function AllDefaults(targets: seq<Target>): Slots {
    if targets == [] then []
    else Defaults(AllDefaults(targets[..|targets| - 1]), targets[|targets| - 1], |targets[|targets| - 1].knownKeys|)
  }

  /** A falsy choice in place of an absent key or an empty scalar, unless the key has a default. */
  function FillOne(slots: Slots, t: Target, k: Key): Slots {
    if k !in t.falsy || k in t.defaults then slots
    else
      match Find(slots, k)
      case None => Put(slots, k, Scalar(t.falsy[k], DEFAULT))
      case Some(e) => if e.multi.None? && e.raw == [] then Put(slots, k, Scalar(t.falsy[k], e.place)) else slots
  }

  function Fill(slots: Slots, t: Target, n: nat): Slots
    requires n <= |t.knownKeys|
  {
    if n == 0 then slots else FillOne(Fill(slots, t, n - 1), t, t.knownKeys[n - 1])
  }

  function FillAll(slots: Slots, targets: seq<Target>): Slots {
    if targets == [] then slots
    else Fill(FillAll(slots, targets[..|targets| - 1]), targets[|targets| - 1], |targets[|targets| - 1].knownKeys|)
  }

  /** Everything a load reads besides the environment. */
  datatype Inputs = Inputs(
    targets: seq<Target>,
    flags: seq<Flag>,
    document: Option<Document>,
    cli: seq<Scalars>,
    cliLists: seq<Lists>,
    processKey: Key)

  function Loaded(inp: Inputs, c: Environ): Option<Slots> {
    var base := AllDefaults(inp.targets);
    var filed := if inp.document.None? then Some(base) else MergeItems(base, inp.document.value.items, c.env);
    match filed
    case None => None
    case Some(slots) =>
      var lists := MergeLists(MergeScalars(MergeEnv(slots, inp.flags, c), inp.cli, CLI), inp.cliLists, CLI);
      Some(FillAll(Remove(lists, inp.processKey), inp.targets))
  }

  /** A load fails exactly when there is a document and some value of it is refused. */
  lemma LoadedExactly(inp: Inputs, c: Environ)
    ensures Loaded(inp, c).Some? <==>
            inp.document.None? ||
            forall i :: 0 <= i < |inp.document.value.items| ==> ItemEntry(inp.document.value.items[i].value, c.env).Some?
  {
    if inp.document.Some? {
      MergeItemsExactly(AllDefaults(inp.targets), inp.document.value.items, c.env);
    }
    hide ItemEntry, MergeItems, MergeEnv, MergeScalars, MergeLists, FillAll, AllDefaults;
  }

  // --- Which layer wins ---

  function Either(a: Option<Entry>, b: Option<Entry>): Option<Entry> {
    if a.Some? then a else b
  }

  /** What each layer alone says of a key; within a layer the last word. */
  function FromDefaults(targets: seq<Target>, k: Key): Option<Entry> {
    if targets == [] then None
    else
      var t := targets[|targets| - 1];
      if k in t.knownKeys && k in t.defaults then Some(Scalar(t.defaults[k], DEFAULT))
      else FromDefaults(targets[..|targets| - 1], k)
  }

  function FromItems(items: seq<Item>, k: Key, env: Environment): Option<Entry> {
    if items == [] then None
    else Either(FromItems(items[1..], k, env), if items[0].key == k then ItemEntry(items[0].value, env) else None)
  }

  function FromEnv(flags: seq<Flag>, c: Environ, k: Key): Option<Entry> {
    if flags == [] then None
    else
      var f := flags[|flags| - 1];
      if f.key == k && f.variable.Some? && f.variable.value in c.env.values then Some(EnvEntry(f.variable.value, c))
      else FromEnv(flags[..|flags| - 1], c, k)
  }

  function FromScalars(values: seq<Scalars>, k: Key): Option<Entry> {
    if values == [] then None
    else if values[|values| - 1].key == k then Some(Scalar(values[|values| - 1].text, CLI))
    else FromScalars(values[..|values| - 1], k)
  }

  function FromLists(values: seq<Lists>, k: Key): Option<Entry> {
    if values == [] then None
    else if values[|values| - 1].key == k then Some(Multi(values[|values| - 1].texts, CLI))
    else FromLists(values[..|values| - 1], k)
  }

  /** Command-line lists, then command-line scalars, the environment, the document, the defaults. */
  function Layered(inp: Inputs, c: Environ, k: Key): Option<Entry> {
    var doc := if inp.document.None? then None else FromItems(inp.document.value.items, k, c.env);
    Either(FromLists(inp.cliLists, k), Either(FromScalars(inp.cli, k), Either(FromEnv(inp.flags, c, k), Either(doc, FromDefaults(inp.targets, k)))))
  }

  lemma {:induction false} DefaultsWin(slots: Slots, t: Target, n: nat, k: Key)
    requires n <= |t.knownKeys|
    ensures Find(Defaults(slots, t, n), k) ==
            if k in t.knownKeys[..n] && k in t.defaults then Some(Scalar(t.defaults[k], DEFAULT)) else Find(slots, k)
  {
    if n > 0 {
      var key := t.knownKeys[n - 1];
      DefaultsWin(slots, t, n - 1, k);
      assert t.knownKeys[..n] == t.knownKeys[..n - 1] + [key];
      if key in t.defaults {
        FindPut(Defaults(slots, t, n - 1), key, Scalar(t.defaults[key], DEFAULT), k);
      }
      hide Find, Put;
    }
  }

  lemma {:induction false} AllDefaultsWin(targets: seq<Target>, k: Key)
    ensures Find(AllDefaults(targets), k) == FromDefaults(targets, k)
  {
    if targets != [] {
      var last := targets[|targets| - 1];
      AllDefaultsWin(targets[..|targets| - 1], k);
      DefaultsWin(AllDefaults(targets[..|targets| - 1]), last, |last.knownKeys|, k);
      assert last.knownKeys[..|last.knownKeys|] == last.knownKeys;
    }
  }

  lemma {:induction false} ItemsWin(slots: Slots, items: seq<Item>, env: Environment, k: Key)
    requires MergeItems(slots, items, env).Some?
    ensures Find(MergeItems(slots, items, env).value, k) == Either(FromItems(items, k, env), Find(slots, k))
    decreases |items|
  {
    if items != [] {
      var e := ItemEntry(items[0].value, env).value;
      ItemsWin(Put(slots, items[0].key, e), items[1..], env, k);
      FindPut(slots, items[0].key, e, k);
      hide Find, Put, ItemEntry;
    }
  }

  lemma {:induction false} EnvWins(slots: Slots, flags: seq<Flag>, c: Environ, k: Key)
    ensures Find(MergeEnv(slots, flags, c), k) == Either(FromEnv(flags, c, k), Find(slots, k))
  {
    if flags != [] {
      var before, f := MergeEnv(slots, flags[..|flags| - 1], c), flags[|flags| - 1];
      EnvWins(slots, flags[..|flags| - 1], c, k);
      if f.variable.Some? && f.variable.value in c.env.values {
        FindPut(before, f.key, EnvEntry(f.variable.value, c), k);
      }
      hide Find, Put, EnvEntry;
    }
  }

  lemma {:induction false} CliWins(slots: Slots, scalars: seq<Scalars>, lists: seq<Lists>, k: Key)
    ensures Find(MergeScalars(slots, scalars, CLI), k) == Either(FromScalars(scalars, k), Find(slots, k))
    ensures Find(MergeLists(slots, lists, CLI), k) == Either(FromLists(lists, k), Find(slots, k))
    decreases |scalars|, |lists|
  {
    if scalars != [] {
      var last := |scalars| - 1;
      CliWins(slots, scalars[..last], lists, k);
      FindPut(MergeScalars(slots, scalars[..last], CLI), scalars[last].key, Scalar(scalars[last].text, CLI), k);
    } else if lists != [] {
      var last := |lists| - 1;
      CliWins(slots, scalars, lists[..last], k);
      FindPut(MergeLists(slots, lists[..last], CLI), lists[last].key, Multi(lists[last].texts, CLI), k);
    }
    hide Find, Put, Join;
  }

  // --- The falsy choices ---

  /** A target's falsy choice for a key it knows and gives no default. */
  predicate Offers(t: Target, k: Key) {
    k in t.knownKeys && k in t.falsy && k !in t.defaults
  }

  predicate Offered(targets: seq<Target>, k: Key) {
    exists i :: 0 <= i < |targets| && Offers(targets[i], k)
  }

  /** What a choice may fill: nothing at all, or an empty text. */
  predicate Blank(e: Option<Entry>) {
    e.None? || (e.value.multi.None? && e.value.raw == [])
  }

  /** The first choice that is not empty, in registration order. */
  function FirstChoice(targets: seq<Target>, k: Key): (text: bytes)
    ensures text == [] ==> forall i :: 0 <= i < |targets| && Offers(targets[i], k) ==> targets[i].falsy[k] == []
    ensures text != [] ==> exists i :: 0 <= i < |targets| && Offers(targets[i], k) && targets[i].falsy[k] == text &&
                                       forall j :: 0 <= j < i && Offers(targets[j], k) ==> targets[j].falsy[k] == []
  {
    if targets == [] then []
    else
      var last := targets[|targets| - 1];
      var before := FirstChoice(targets[..|targets| - 1], k);
      if before != [] then before else if Offers(last, k) then last.falsy[k] else []
  }

  /** What the fill makes of a key: only a blank one some target has a choice for, at the place it had. */
  function Filled(targets: seq<Target>, k: Key, e: Option<Entry>): Option<Entry> {
    if Blank(e) && Offered(targets, k)
    then Some(Scalar(FirstChoice(targets, k), if e.Some? then e.value.place else DEFAULT))
    else e
  }

  lemma {:induction false} FillIs(slots: Slots, t: Target, n: nat, k: Key)
    requires n <= |t.knownKeys|
    ensures Find(Fill(slots, t, n), k) ==
            var e := Find(slots, k);
            if k in t.knownKeys[..n] && k in t.falsy && k !in t.defaults && Blank(e)
            then Some(Scalar(t.falsy[k], if e.Some? then e.value.place else DEFAULT)) else e
  {
    if n > 0 {
      var before, key := Fill(slots, t, n - 1), t.knownKeys[n - 1];
      FillIs(slots, t, n - 1, k);
      assert t.knownKeys[..n] == t.knownKeys[..n - 1] + [key];
      if key in t.falsy {
        var place := if Find(before, key).Some? then Find(before, key).value.place else DEFAULT;
        FindPut(before, key, Scalar(t.falsy[key], place), k);
      }
      hide Find, Put, Join;
    }
  }

  lemma {:induction false} FillAllIs(slots: Slots, targets: seq<Target>, k: Key)
    ensures Find(FillAll(slots, targets), k) == Filled(targets, k, Find(slots, k))
  {
    if targets != [] {
      var last := |targets| - 1;
      var t, before := targets[last], FillAll(slots, targets[..last]);
      FillAllIs(slots, targets[..last], k);
      FillIs(before, t, |t.knownKeys|, k);
      assert t.knownKeys[..|t.knownKeys|] == t.knownKeys;
      OffersLast(targets, k);
      hide Find, Put, Join, Fill;
    }
  }

  lemma OffersLast(targets: seq<Target>, k: Key)
    requires targets != []
    ensures Offered(targets, k) <==> Offers(targets[|targets| - 1], k) || Offered(targets[..|targets| - 1], k)
    ensures !Offered(targets[..|targets| - 1], k) ==> FirstChoice(targets[..|targets| - 1], k) == []
  {
    hide Offers;
    var before := targets[..|targets| - 1];
    assert forall i :: 0 <= i < |before| ==> before[i] == targets[i];
  }

  // --- The keys stay in order ---

  lemma {:induction false} DefaultsAscend(slots: Slots, t: Target, n: nat)
    requires Ascending(slots) && n <= |t.knownKeys|
    ensures Ascending(Defaults(slots, t, n)) && Ascending(Fill(slots, t, n))
  {
    if n > 0 {
      var k := t.knownKeys[n - 1];
      DefaultsAscend(slots, t, n - 1);
      var before, filled := Defaults(slots, t, n - 1), Fill(slots, t, n - 1);
      if k in t.defaults {
        PutAscends(before, k, Scalar(t.defaults[k], DEFAULT));
      }
      if k in t.falsy {
        PutAscends(filled, k, Scalar(t.falsy[k], if Find(filled, k).Some? then Find(filled, k).value.place else DEFAULT));
      }
      hide Find, Put, Ascending;
    }
  }

  lemma {:induction false} TargetsAscend(slots: Slots, targets: seq<Target>)
    requires Ascending(slots)
    ensures Ascending(AllDefaults(targets)) && Ascending(FillAll(slots, targets))
  {
    if targets != [] {
      var last := |targets| - 1;
      TargetsAscend(slots, targets[..last]);
      DefaultsAscend(AllDefaults(targets[..last]), targets[last], |targets[last].knownKeys|);
      DefaultsAscend(FillAll(slots, targets[..last]), targets[last], |targets[last].knownKeys|);
      hide Find, Put, Ascending;
    }
  }

  lemma {:induction false} ItemsAscend(slots: Slots, items: seq<Item>, env: Environment)
    requires Ascending(slots) && MergeItems(slots, items, env).Some?
    ensures Ascending(MergeItems(slots, items, env).value)
    decreases |items|
  {
    if items != [] {
      var e := ItemEntry(items[0].value, env).value;
      PutAscends(slots, items[0].key, e);
      ItemsAscend(Put(slots, items[0].key, e), items[1..], env);
      hide Find, Put, ItemEntry, Ascending;
    }
  }

  lemma {:induction false} EnvAscends(slots: Slots, flags: seq<Flag>, c: Environ)
    requires Ascending(slots)
    ensures Ascending(MergeEnv(slots, flags, c))
  {
    if flags != [] {
      var before, f := MergeEnv(slots, flags[..|flags| - 1], c), flags[|flags| - 1];
      EnvAscends(slots, flags[..|flags| - 1], c);
      if f.variable.Some? && f.variable.value in c.env.values {
        PutAscends(before, f.key, EnvEntry(f.variable.value, c));
      }
      hide Find, Put, EnvEntry, Ascending;
    }
  }

  lemma {:induction false} CliAscends(slots: Slots, scalars: seq<Scalars>, lists: seq<Lists>)
    requires Ascending(slots)
    ensures Ascending(MergeScalars(slots, scalars, CLI)) && Ascending(MergeLists(slots, lists, CLI))
    decreases |scalars|, |lists|
  {
    if scalars != [] {
      var last := |scalars| - 1;
      CliAscends(slots, scalars[..last], lists);
      PutAscends(MergeScalars(slots, scalars[..last], CLI), scalars[last].key, Scalar(scalars[last].text, CLI));
    } else if lists != [] {
      var last := |lists| - 1;
      CliAscends(slots, scalars, lists[..last]);
      PutAscends(MergeLists(slots, lists[..last], CLI), lists[last].key, Multi(lists[last].texts, CLI));
    }
    hide Find, Put, Join, Ascending;
  }

  /** What the five layers hold ahead of the deletion of the process key and the fill. */
  lemma {:induction false} BeforeFill(inp: Inputs, c: Environ) returns (lists: Slots)
    requires Loaded(inp, c).Some?
    ensures Ascending(lists) && Loaded(inp, c).value == FillAll(Remove(lists, inp.processKey), inp.targets)
    ensures forall k :: Find(lists, k) == Layered(inp, c, k)
  {
    var base := AllDefaults(inp.targets);
    var slots := if inp.document.None? then base else MergeItems(base, inp.document.value.items, c.env).value;
    var env := MergeEnv(slots, inp.flags, c);
    var cli := MergeScalars(env, inp.cli, CLI);
    lists := MergeLists(cli, inp.cliLists, CLI);
    TargetsAscend([], inp.targets);
    if inp.document.Some? {
      ItemsAscend(base, inp.document.value.items, c.env);
    }
    EnvAscends(slots, inp.flags, c);
    CliAscends(env, inp.cli, []);
    CliAscends(cli, [], inp.cliLists);
    forall k ensures Find(lists, k) == Layered(inp, c, k) {
      AllDefaultsWin(inp.targets, k);
      if inp.document.Some? {
        ItemsWin(base, inp.document.value.items, c.env, k);
      }
      EnvWins(slots, inp.flags, c, k);
      CliWins(env, inp.cli, [], k);
      CliWins(cli, [], inp.cliLists, k);
    }
    hide Find, Remove, MergeItems, MergeEnv, MergeScalars, MergeLists, FillAll, AllDefaults, Ascending;
  }

  /** A load's keys are in order, each there once. */
  lemma {:induction false} LoadedAscends(inp: Inputs, c: Environ)
    requires Loaded(inp, c).Some?
    ensures Ascending(Loaded(inp, c).value)
  {
    hide Ascending, Remove, FillAll, Loaded;
    var lists := BeforeFill(inp, c);
    RemoveAscends(lists, inp.processKey);
    TargetsAscend(Remove(lists, inp.processKey), inp.targets);
  }

  /**
   * What a load holds under every key: the last layer that says anything, then the falsy choice
   * where that is blank. The process key has no layer, so it is there only by such a choice.
   */
  lemma {:induction false} LaterLayerWins(inp: Inputs, c: Environ, k: Key)
    requires Loaded(inp, c).Some?
    ensures Find(Loaded(inp, c).value, k) ==
            Filled(inp.targets, k, if k == inp.processKey then None else Layered(inp, c, k))
    ensures Find(Loaded(inp, c).value, inp.processKey).None? <==> !Offered(inp.targets, inp.processKey)
  {
    hide Ascending, Remove, FillAll, Loaded, Find, Layered, Offers;
    var lists := BeforeFill(inp, c);
    RemoveAscends(lists, inp.processKey);
    if k != inp.processKey {
      FindRemove(lists, inp.processKey, k);
    }
    FillAllIs(Remove(lists, inp.processKey), inp.targets, k);
    FillAllIs(Remove(lists, inp.processKey), inp.targets, inp.processKey);
  }

  // --- Loading as it runs ---

  method ExpandElements(elements: seq<Element>, env: Environment) returns (r: Option<Expansions>)
    ensures r == ExpandAll(elements, env)
  {
    hide MeaningOf;
    var texts, secret := [], false;
    for i := 0 to |elements|
      invariant ExpandAll(elements[..i], env) == Some(Expansions(texts, secret))
    {
      assert elements[..i + 1][..i] == elements[..i];
      var text, from := elements[i].text, false;
      if elements[i].isString {
        var x := ExpandEnvRefs(text, env);
        if x.Failed? {
          ExpandFails(elements, env, i + 1);
          return None;
        }
        text, from := x.text, x.secret;
      }
      texts, secret := texts + [text], secret || from;
    }
    assert elements[..|elements|] == elements;
    r := Some(Expansions(texts, secret));
  }

  lemma {:induction false} ExpandFails(elements: seq<Element>, env: Environment, n: nat)
    requires n <= |elements| && ExpandAll(elements[..n], env).None?
    ensures ExpandAll(elements, env).None?
    decreases |elements|
  {
    if n < |elements| {
      assert elements[..|elements| - 1][..n] == elements[..n];
      ExpandFails(elements[..|elements| - 1], env, n);
    } else {
      assert elements[..n] == elements;
    }
  }

  function Sequel(tables: seq<Table>, rest: Option<seq<Table>>): Option<seq<Table>> {
    match rest
    case None => None
    case Some(more) => Some(tables + more)
  }

  lemma TablesFrom(docs: seq<Document>, i: nat, env: Environment, tables: seq<Table>)
    requires i < |docs|
    ensures MergeItems([], docs[i].items, env).None? ==> Sequel(tables, TableSlots(docs[i..], env)) == None
    ensures MergeItems([], docs[i].items, env).Some? ==>
              Sequel(tables, TableSlots(docs[i..], env)) ==
              Sequel(tables + [Table(MergeItems([], docs[i].items, env).value)], TableSlots(docs[i + 1..], env))
  {
    hide MergeItems;
    assert docs[i..][0] == docs[i] && docs[i..][1..] == docs[i + 1..];
    var first, rest := MergeItems([], docs[i].items, env), TableSlots(docs[i + 1..], env);
    if first.Some? && rest.Some? {
      assert tables + ([Table(first.value)] + rest.value) == (tables + [Table(first.value)]) + rest.value;
    }
  }

  /** Each element of an array of tables becomes an overlay of its own. */
  method MergeTables(docs: seq<Document>, env: Environment) returns (r: Option<seq<Table>>)
    ensures r == TableSlots(docs, env)
    decreases docs
  {
    hide MergeItems;
    var tables := [];
    assert docs[0..] == docs;
    assert TableSlots(docs, env).Some? ==> [] + TableSlots(docs, env).value == TableSlots(docs, env).value;
    for i := 0 to |docs|
      invariant TableSlots(docs, env) == Sequel(tables, TableSlots(docs[i..], env))
    {
      TablesFrom(docs, i, env, tables);
      var element := new Overlay();
      var ok := MergeDocument(element, docs[i].items, env);
      if !ok {
        return None;
      }
      tables := tables + [Table(element.entries)];
    }
    assert tables + [] == tables;
    r := Some(tables);
  }

  method MergeDocument(o: Overlay, items: seq<Item>, env: Environment) returns (ok: bool)
    modifies o
    ensures ok <==> MergeItems(old(o.entries), items, env).Some?
    ensures ok ==> o.entries == MergeItems(old(o.entries), items, env).value
    decreases items
  {
    hide MeaningOf, Put, Find, Join, ExpandAll;
    ok := true;
    assert items[0..] == items;
    for i := 0 to |items|
      invariant MergeItems(old(o.entries), items, env) == MergeItems(o.entries, items[i..], env)
    {
      assert items[i..][0] == items[i] && items[i..][1..] == items[i + 1..];
      var k := items[i].key;
      match items[i].value {
        case Refused =>
          return false;
        case PlainValue(text) =>
          o.Set(k, text, FILE);
        case StringValue(text) =>
          var x := ExpandEnvRefs(text, env);
          if x.Failed? {
            return false;
          }
          PutMarked(o.entries, k, Scalar(x.text, FILE));
          o.Set(k, x.text, FILE);
          if x.secret {
            o.MarkSecret(k);
          }
        case ArrayValue(elements) =>
          var x := ExpandElements(elements, env);
          if x.None? {
            return false;
          }
          PutMarked(o.entries, k, Multi(x.value.texts, FILE));
          o.SetMulti(k, x.value.texts, FILE);
          if x.value.secret {
            o.MarkSecret(k);
          }
        case TablesValue(docs) =>
          var tables := MergeTables(docs, env);
          if tables.None? {
            return false;
          }
          o.SetTables(k, tables.value, FILE);
      }
    }
  }

  /** The environment over the document: each flag's variable, placed and marked by its origin. */
  method MergeEnviron(o: Overlay, flags: seq<Flag>, c: Environ)
    modifies o
    ensures o.entries == MergeEnv(old(o.entries), flags, c)
  {
    hide Put, Find;
    for i := 0 to |flags|
      invariant o.entries == MergeEnv(old(o.entries), flags[..i], c)
    {
      assert flags[..i + 1][..i] == flags[..i];
      if flags[i].variable.Some? && flags[i].variable.value in c.env.values {
        var name := flags[i].variable.value;
        var place := if name in c.files then ENV_FILE + c.files[name] else ENV;
        PutMarked(o.entries, flags[i].key, Scalar(c.env.values[name], place));
        o.Set(flags[i].key, c.env.values[name], place);
        if name in c.env.secret {
          o.MarkSecret(flags[i].key);
        }
      }
    }
    assert flags[..|flags|] == flags;
  }

  method MergeCli(o: Overlay, scalars: seq<Scalars>, lists: seq<Lists>)
    modifies o
    ensures o.entries == MergeLists(MergeScalars(old(o.entries), scalars, CLI), lists, CLI)
  {
    hide Put, Find, Join;
    for i := 0 to |scalars|
      invariant o.entries == MergeScalars(old(o.entries), scalars[..i], CLI)
    {
      assert scalars[..i + 1][..i] == scalars[..i];
      o.Set(scalars[i].key, scalars[i].text, CLI);
    }
    assert scalars[..|scalars|] == scalars;
    for i := 0 to |lists|
      invariant o.entries == MergeLists(MergeScalars(old(o.entries), scalars, CLI), lists[..i], CLI)
    {
      assert lists[..i + 1][..i] == lists[..i];
      o.SetMulti(lists[i].key, lists[i].texts, CLI);
    }
    assert lists[..|lists|] == lists;
  }

  method SetDefaults(o: Overlay, targets: seq<Target>)
    requires o.entries == []
    modifies o
    ensures o.entries == AllDefaults(targets)
  {
    hide Put, Find;
    for i := 0 to |targets|
      invariant o.entries == AllDefaults(targets[..i])
    {
      assert targets[..i + 1][..i] == targets[..i];
      var t := targets[i];
      for j := 0 to |t.knownKeys|
        invariant o.entries == Defaults(AllDefaults(targets[..i]), t, j)
      {
        if t.knownKeys[j] in t.defaults {
          o.Set(t.knownKeys[j], t.defaults[t.knownKeys[j]], DEFAULT);
        }
      }
    }
    assert targets[..|targets|] == targets;
  }

  method FillFalsy(o: Overlay, targets: seq<Target>)
    modifies o
    ensures o.entries == FillAll(old(o.entries), targets)
    ensures forall k :: Find(o.entries, k) == Filled(targets, k, Find(old(o.entries), k))
  {
    hide Put, Find, Filled;
    forall k {
      FillAllIs(o.entries, targets, k);
    }
    for i := 0 to |targets|
      invariant o.entries == FillAll(old(o.entries), targets[..i])
    {
      assert targets[..i + 1][..i] == targets[..i];
      var t := targets[i];
      ghost var before := o.entries;
      for j := 0 to |t.knownKeys|
        invariant o.entries == Fill(before, t, j)
      {
        var k := t.knownKeys[j];
        if k in t.falsy && k !in t.defaults {
          match o.Get(k) {
            case None => o.Set(k, t.falsy[k], DEFAULT);
            case Some(e) =>
              if e.multi.None? && e.raw == [] {
                o.Set(k, t.falsy[k], e.place);
              }
          }
        }
      }
    }
    assert targets[..|targets|] == targets;
  }

  /** Defaults, document, environment, command line, then the falsy choices. */
  method Load(inp: Inputs, sources: seq<Source>, process: map<bytes, bytes>) returns (ok: bool, o: Overlay)
    requires WellFormed(sources)
    ensures fresh(o)
    ensures ok <==> Loaded(inp, Composed(sources, process)).Some?
    ensures ok ==> o.entries == Loaded(inp, Composed(sources, process)).value && Ascending(o.entries)
  {
    hide Put, Find, MergeItems, MergeEnv, FillAll, AllDefaults, Composed, Ascending, Filled;
    o := new Overlay();
    SetDefaults(o, inp.targets);
    var c := ComposeEnviron(sources, process);
    ok := true;
    if inp.document.Some? {
      ok := MergeDocument(o, inp.document.value.items, c.env);
      if !ok {
        return;
      }
    }
    MergeEnviron(o, inp.flags, c);
    MergeCli(o, inp.cli, inp.cliLists);
    o.Delete(inp.processKey);
    FillFalsy(o, inp.targets);
    LoadedAscends(inp, Composed(sources, process));
  }
}
