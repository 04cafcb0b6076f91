/**
 * The listing depends on nothing secret: two environments with the same names and origins that
 * differ only in non-empty values of secret origin give the same listing, as long as no
 * dependon condition reads a key of secret origin.
 */
module Redaction {
  import opened ByteStrings
  import opened ConfigOverlay
  import opened ConfigLoad
  import opened Provenance
  import I = Interpolate
  import D = DependsOn

  // --- Environments that differ only in secrets ---

  predicate EnvAlike(a: I.Environment, b: I.Environment) {
    && a.values.Keys == b.values.Keys && a.secret == b.secret
    && forall n :: n in a.values ==>
         if n in a.secret then a.values[n] != [] && b.values[n] != [] else a.values[n] == b.values[n]
  }

  predicate EnvironAlike(a: Environ, b: Environ) {
    EnvAlike(a.env, b.env) && a.files == b.files
  }

  /** Sources of the same names and origin, the secret ones with any non-empty values. */
  predicate SourceAlike(a: Source, b: Source) {
    && a.secret == b.secret && a.paths == b.paths && a.values.Keys == b.values.Keys
    && forall n :: n in a.values ==> if a.secret then a.values[n] != [] && b.values[n] != [] else a.values[n] == b.values[n]
  }

  /** Layering sources that differ only in secrets composes to environments that do. */
  lemma {:induction false} ComposedAlike(a: seq<Source>, b: seq<Source>, process: map<bytes, bytes>)
    requires WellFormed(a) && |a| == |b| && forall i :: 0 <= i < |a| ==> SourceAlike(a[i], b[i])
    ensures EnvironAlike(LayAll(a), LayAll(b))
    ensures EnvironAlike(Composed(a, process), Composed(b, process))
  {
    if a != [] {
      ComposedAlike(a[..|a| - 1], b[..|b| - 1], process);
    }
  }

  // --- Overlays that differ only in secrets ---

  predicate SlotsAlike(a: Slots, b: Slots)
    decreases a
  {
    |a| == |b| && forall i :: 0 <= i < |a| ==> a[i].key == b[i].key && EntryAlike(a[i].entry, b[i].entry)
  }

  /** The same but for the text of a marked entry, which is not empty. */
  predicate EntryAlike(a: Entry, b: Entry)
    decreases a
  {
    && a.place == b.place && a.secret == b.secret && a.multi.Some? == b.multi.Some? && a.isTables == b.isTables
    && (if a.secret then !a.isTables && a.raw != [] && b.raw != []
        else
          && a.raw == b.raw && a.multi == b.multi
          && (a.isTables ==>
                && |a.tables| == |b.tables|
                && forall i :: 0 <= i < |a.tables| ==> SlotsAlike(a.tables[i].slots, b.tables[i].slots)))
  }

  lemma {:induction false} FindAlike(a: Slots, b: Slots, key: Key)
    requires SlotsAlike(a, b)
    ensures Find(a, key).Some? == Find(b, key).Some?
    ensures Find(a, key).Some? ==> EntryAlike(Find(a, key).value, Find(b, key).value)
    decreases |a|
  {
    hide EntryAlike;
    if a != [] {
      FindAlike(a[1..], b[1..], key);
    }
  }

  lemma {:induction false} PutAlike(a: Slots, b: Slots, key: Key, x: Entry, y: Entry)
    requires SlotsAlike(a, b) && EntryAlike(x, y)
    ensures SlotsAlike(Put(a, key, x), Put(b, key, y))
    decreases |a|
  {
    hide EntryAlike, KeyLess;
    if a != [] {
      PutAlike(a[1..], b[1..], key, x, y);
    }
  }

  lemma {:induction false} RemoveAlike(a: Slots, b: Slots, key: Key)
    requires SlotsAlike(a, b)
    ensures SlotsAlike(Remove(a, key), Remove(b, key))
    decreases |a|
  {
    hide EntryAlike;
    if a != [] {
      RemoveAlike(a[1..], b[1..], key);
    }
  }

  lemma {:induction false} SameAlike(e: Entry)
    requires !e.secret && !e.isTables
    ensures EntryAlike(e, e)
  {
  }

  // --- The document ---

  lemma {:induction false} ValuesAlike(ts: seq<I.Token>, a: I.Environment, b: I.Environment)
    requires EnvAlike(a, b)
    ensures I.FirstBad(ts, a) == I.FirstBad(ts, b)
    ensures I.AnySecret(ts, a) == I.AnySecret(ts, b)
    ensures !I.AnySecret(ts, a) ==> I.Values(ts, a) == I.Values(ts, b)
    ensures I.AnySecret(ts, a) && I.FirstBad(ts, a).None? ==> I.Values(ts, a) != [] && I.Values(ts, b) != []
  {
    if ts != [] {
      ValuesAlike(ts[1..], a, b);
      assert forall i :: 1 <= i < |ts| ==> ts[i] == ts[1..][i - 1];
      SecretSplit(ts, a);
      SecretSplit(ts, b);
    }
  }

  lemma SecretSplit(ts: seq<I.Token>, env: I.Environment)
    requires ts != []
    ensures I.AnySecret(ts, env) <==> I.SecretRef(ts[0], env) || I.AnySecret(ts[1..], env)
  {
    if i :| 0 <= i < |ts| && I.SecretRef(ts[i], env) {
      assert i > 0 ==> I.SecretRef(ts[1..][i - 1], env);
    }
    if i :| 0 <= i < |ts[1..]| && I.SecretRef(ts[1..][i], env) {
      assert I.SecretRef(ts[i + 1], env);
    }
  }

  /** An expansion fails alike, is marked alike, and without a mark is the same text. */
  lemma MeaningAlike(s: bytes, a: I.Environment, b: I.Environment)
    requires EnvAlike(a, b)
    ensures var x, y := I.MeaningOf(s, a), I.MeaningOf(s, b);
            && x.Failed? == y.Failed?
            && (x.Expanded? ==> x.secret == y.secret)
            && (x.Expanded? && !x.secret ==> x.text == y.text)
            && (x.Expanded? && x.secret ==> x.text != [] && y.text != [])
  {
    ValuesAlike(I.Tokens(s), a, b);
  }

  predicate HasText(texts: seq<bytes>) {
    exists i :: 0 <= i < |texts| && texts[i] != []
  }

  lemma {:induction false} JoinHasText(texts: seq<bytes>)
    requires HasText(texts)
    ensures Join(texts) != []
  {
  }

  lemma {:induction false} ExpandAlike(elements: seq<Element>, a: I.Environment, b: I.Environment)
    requires EnvAlike(a, b)
    ensures var x, y := ExpandAll(elements, a), ExpandAll(elements, b);
            && x.Some? == y.Some?
            && (x.Some? ==> x.value.secret == y.value.secret)
            && (x.Some? && !x.value.secret ==> x.value.texts == y.value.texts)
            && (x.Some? && x.value.secret ==> HasText(x.value.texts) && HasText(y.value.texts))
  {
    if elements != [] {
      var last := |elements| - 1;
      ExpandAlike(elements[..last], a, b);
      MeaningAlike(elements[last].text, a, b);
      hide I.MeaningOf, EnvAlike, HasText;
      var x, y := ExpandAll(elements[..last], a), ExpandAll(elements[..last], b);
      if x.Some? {
        MoreText(x.value.texts, elements[last].text);
        MoreText(y.value.texts, elements[last].text);
        var t, u := I.MeaningOf(elements[last].text, a), I.MeaningOf(elements[last].text, b);
        if t.Expanded? {
          MoreText(x.value.texts, t.text);
          MoreText(y.value.texts, u.text);
        }
      }
    }
  }

  lemma MoreText(texts: seq<bytes>, t: bytes)
    ensures HasText(texts) ==> HasText(texts + [t])
    ensures t != [] ==> HasText(texts + [t])
  {
    if i :| 0 <= i < |texts| && texts[i] != [] {
      assert (texts + [t])[i] != [];
    }
    assert (texts + [t])[|texts|] == t;
  }

  lemma {:induction false} EntriesAlike(v: TomlValue, a: I.Environment, b: I.Environment)
    requires EnvAlike(a, b)
    ensures ItemEntry(v, a).Some? == ItemEntry(v, b).Some?
    ensures ItemEntry(v, a).Some? ==> EntryAlike(ItemEntry(v, a).value, ItemEntry(v, b).value)
    decreases v
  {
    match v {
      case StringValue(text) =>
        MeaningAlike(text, a, b);
        hide I.MeaningOf, EnvAlike;
      case ArrayValue(elements) =>
        ExpandAlike(elements, a, b);
        var x, y := ExpandAll(elements, a), ExpandAll(elements, b);
        if x.Some? && x.value.secret {
          JoinHasText(x.value.texts);
          JoinHasText(y.value.texts);
        }
        hide ExpandAll, Join, EnvAlike;
      case TablesValue(tables) =>
        TablesAlike(tables, a, b);
        hide TableSlots, EnvAlike, SlotsAlike;
      case _ =>
    }
  }

  lemma {:induction false} TablesAlike(tables: seq<Document>, a: I.Environment, b: I.Environment)
    requires EnvAlike(a, b)
    ensures var x, y := TableSlots(tables, a), TableSlots(tables, b);
            && x.Some? == y.Some?
            && (x.Some? ==>
                  && |x.value| == |y.value|
                  && forall i :: 0 <= i < |x.value| ==> SlotsAlike(x.value[i].slots, y.value[i].slots))
    decreases tables
  {
    if tables != [] {
      ItemsAlike([], [], tables[0].items, a, b);
      TablesAlike(tables[1..], a, b);
      hide MergeItems, EnvAlike, SlotsAlike;
    }
  }

  lemma {:induction false} ItemsAlike(s: Slots, t: Slots, items: seq<Item>, a: I.Environment, b: I.Environment)
    requires EnvAlike(a, b) && SlotsAlike(s, t)
    ensures MergeItems(s, items, a).Some? == MergeItems(t, items, b).Some?
    ensures MergeItems(s, items, a).Some? ==> SlotsAlike(MergeItems(s, items, a).value, MergeItems(t, items, b).value)
    decreases items
  {
    if items != [] {
      EntriesAlike(items[0].value, a, b);
      var x, y := ItemEntry(items[0].value, a), ItemEntry(items[0].value, b);
      hide EnvAlike, SlotsAlike, EntryAlike, ItemEntry;
      if x.Some? {
        PutAlike(s, t, items[0].key, x.value, y.value);
        ItemsAlike(Put(s, items[0].key, x.value), Put(t, items[0].key, y.value), items[1..], a, b);
      }
    }
  }

  // --- The other layers ---

  lemma {:induction false} EnvLayerAlike(s: Slots, t: Slots, flags: seq<Flag>, a: Environ, b: Environ)
    requires EnvironAlike(a, b) && SlotsAlike(s, t)
    ensures SlotsAlike(MergeEnv(s, flags, a), MergeEnv(t, flags, b))
  {
    if flags != [] {
      var last := |flags| - 1;
      var f := flags[last];
      EnvLayerAlike(s, t, flags[..last], a, b);
      if f.variable.Some? && f.variable.value in a.env.values {
        var x, y := EnvEntry(f.variable.value, a), EnvEntry(f.variable.value, b);
        assert EntryAlike(x, y);
        hide SlotsAlike, EntryAlike, EnvEntry;
        PutAlike(MergeEnv(s, flags[..last], a), MergeEnv(t, flags[..last], b), f.key, x, y);
      }
    }
  }

  lemma {:induction false} ScalarsAlike(s: Slots, t: Slots, values: seq<Scalars>, place: string)
    requires SlotsAlike(s, t)
    ensures SlotsAlike(MergeScalars(s, values, place), MergeScalars(t, values, place))
  {
    if values != [] {
      hide SlotsAlike;
      var last := |values| - 1;
      ScalarsAlike(s, t, values[..last], place);
      var e := Scalar(values[last].text, place);
      SameAlike(e);
      PutAlike(MergeScalars(s, values[..last], place), MergeScalars(t, values[..last], place), values[last].key, e, e);
    }
  }

  lemma {:induction false} ListsAlike(s: Slots, t: Slots, values: seq<Lists>, place: string)
    requires SlotsAlike(s, t)
    ensures SlotsAlike(MergeLists(s, values, place), MergeLists(t, values, place))
  {
    if values != [] {
      hide SlotsAlike, Join;
      var last := |values| - 1;
      ListsAlike(s, t, values[..last], place);
      var e := Multi(values[last].texts, place);
      SameAlike(e);
      PutAlike(MergeLists(s, values[..last], place), MergeLists(t, values[..last], place), values[last].key, e, e);
    }
  }

  lemma {:induction false} FillOneAlike(s: Slots, t: Slots, target: Target, k: Key)
    requires SlotsAlike(s, t)
    ensures SlotsAlike(FillOne(s, target, k), FillOne(t, target, k))
  {
    FindAlike(s, t, k);
    hide SlotsAlike, Find, Put;
    if k in target.falsy && k !in target.defaults {
      var place := if Find(s, k).Some? then Find(s, k).value.place else DEFAULT;
      var e := Scalar(target.falsy[k], place);
      SameAlike(e);
      PutAlike(s, t, k, e, e);
    }
  }

  lemma {:induction false} FillAlike(s: Slots, t: Slots, target: Target, n: nat)
    requires SlotsAlike(s, t) && n <= |target.knownKeys|
    ensures SlotsAlike(ConfigLoad.Fill(s, target, n), ConfigLoad.Fill(t, target, n))
  {
    hide SlotsAlike, FillOne;
    if n > 0 {
      FillAlike(s, t, target, n - 1);
      FillOneAlike(ConfigLoad.Fill(s, target, n - 1), ConfigLoad.Fill(t, target, n - 1), target, target.knownKeys[n - 1]);
    }
  }

  lemma {:induction false} FillAllAlike(s: Slots, t: Slots, targets: seq<Target>)
    requires SlotsAlike(s, t)
    ensures SlotsAlike(FillAll(s, targets), FillAll(t, targets))
  {
    hide SlotsAlike, ConfigLoad.Fill;
    if targets != [] {
      var last := |targets| - 1;
      FillAllAlike(s, t, targets[..last]);
      FillAlike(FillAll(s, targets[..last]), FillAll(t, targets[..last]), targets[last], |targets[last].knownKeys|);
    }
  }

  lemma {:induction false} DefaultsPlain(targets: seq<Target>)
    ensures SlotsAlike(AllDefaults(targets), AllDefaults(targets))
  {
    if targets != [] {
      var last := |targets| - 1;
      DefaultsPlain(targets[..last]);
      DefaultsPlainOne(AllDefaults(targets[..last]), targets[last], |targets[last].knownKeys|);
    }
  }

  lemma {:induction false} DefaultsPlainOne(s: Slots, t: Target, n: nat)
    requires SlotsAlike(s, s) && n <= |t.knownKeys|
    ensures SlotsAlike(Defaults(s, t, n), Defaults(s, t, n))
  {
    if n > 0 {
      hide SlotsAlike;
      DefaultsPlainOne(s, t, n - 1);
      var k := t.knownKeys[n - 1];
      if k in t.defaults {
        SameAlike(Scalar(t.defaults[k], DEFAULT));
        PutAlike(Defaults(s, t, n - 1), Defaults(s, t, n - 1), k, Scalar(t.defaults[k], DEFAULT), Scalar(t.defaults[k], DEFAULT));
      }
    }
  }

  /** Two loads succeed together, and their overlays differ only in marked entries. */
  lemma {:induction false} LoadedAlike(inp: Inputs, a: Environ, b: Environ)
    requires EnvironAlike(a, b)
    ensures Loaded(inp, a).Some? == Loaded(inp, b).Some?
    ensures Loaded(inp, a).Some? ==> SlotsAlike(Loaded(inp, a).value, Loaded(inp, b).value)
  {
    DefaultsPlain(inp.targets);
    var base := AllDefaults(inp.targets);
    if inp.document.Some? {
      ItemsAlike(base, base, inp.document.value.items, a.env, b.env);
    }
    var x := if inp.document.None? then Some(base) else MergeItems(base, inp.document.value.items, a.env);
    var y := if inp.document.None? then Some(base) else MergeItems(base, inp.document.value.items, b.env);
    hide SlotsAlike, MergeItems, MergeEnv, MergeScalars, MergeLists, Remove, FillAll, AllDefaults;
    if x.Some? {
      var s, t := MergeEnv(x.value, inp.flags, a), MergeEnv(y.value, inp.flags, b);
      EnvLayerAlike(x.value, y.value, inp.flags, a, b);
      ScalarsAlike(s, t, inp.cli, CLI);
      ListsAlike(MergeScalars(s, inp.cli, CLI), MergeScalars(t, inp.cli, CLI), inp.cliLists, CLI);
      var u, v := MergeLists(MergeScalars(s, inp.cli, CLI), inp.cliLists, CLI), MergeLists(MergeScalars(t, inp.cli, CLI), inp.cliLists, CLI);
      RemoveAlike(u, v, inp.processKey);
      FillAllAlike(Remove(u, inp.processKey), Remove(v, inp.processKey), inp.targets);
    }
  }

  // --- The listing ---

  /** No dependon condition reads a key whose value is secret by origin. */
  ghost predicate NoSecretCondition(p: Policy, slots: Slots) {
    forall k, i :: k in Parents(p.defs) && 0 <= i < |Parents(p.defs)[k]| ==> Open(slots, Parents(p.defs)[k][i].key)
  }

  predicate Open(slots: Slots, key: Key) {
    Find(slots, key).Some? ==> !Find(slots, key).value.secret
  }

  lemma {:induction false} ConditionAlike(p: Policy, a: Slots, b: Slots, c: D.Dependency)
    requires SlotsAlike(a, b) && Open(a, c.key)
    ensures ConditionFails(p, a, c) == ConditionFails(p, b, c)
  {
    FindAlike(a, b, c.key);
    hide SlotsAlike, Find, SameValue, Kinds, Provenance.Falsy;
  }

  lemma {:induction false} HiddenAlike(p: Policy, a: Slots, b: Slots, x: set<Key>, y: set<Key>)
    requires SlotsAlike(a, b) && NoSecretCondition(p, a) && IsHidden(p, a, x) && IsHidden(p, b, y)
    ensures x == y
  {
    var parents := Parents(p.defs);
    forall k | k in parents ensures D.FailsAt(parents, Fails(p, a), k) == D.FailsAt(parents, Fails(p, b), k) {
      forall i | 0 <= i < |parents[k]| ensures Fails(p, a)(parents[k][i]) == Fails(p, b)(parents[k][i]) {
        assert Open(a, parents[k][i].key);
        ConditionAlike(p, a, b, parents[k][i]);
      }
    }
    hide SlotsAlike, ConditionFails, Fails, Parents;
    forall k, w | D.IsWalk(parents, w) ensures D.Leads(parents, Fails(p, a), w, k, {}) == D.Leads(parents, Fails(p, b), w, k, {}) {
    }
    assert forall k :: k in x <==> k in y;
  }

  lemma {:induction false} DisplayAlike(key: Key, x: Entry, y: Entry, mode: Mode)
    requires EntryAlike(x, y)
    ensures DisplayValue(key, x.raw, mode, x.secret) == DisplayValue(key, y.raw, mode, y.secret)
  {
    hide LooksSensitive;
  }

  lemma {:induction false} FieldAlike(p: Policy, a: Slots, b: Slots, shown: Key, stable: Key, index: nat, f: Field)
    requires SlotsAlike(a, b)
    ensures FieldLines(p, a, shown, stable, index, f) == FieldLines(p, b, shown, stable, index, f)
    decreases f, 2
  {
    FindAlike(a, b, f.key);
    hide SlotsAlike, Find, DisplayValue, TableLines, Modes, Omitted, Decimal;
    if Find(a, f.key).Some? {
      var x, y := Find(a, f.key).value, Find(b, f.key).value;
      DisplayAlike(shown + "[" + Chars(Decimal(index)) + "]." + f.key, x, y, At(Modes(p.defs), stable + "." + f.key, NoMode));
      if x.isTables && f.kind.TableArrayKind? {
        TableLinesAlike(p, x.tables, y.tables, shown + "[" + Chars(Decimal(index)) + "]." + f.key, stable + "." + f.key, f.nested, |x.tables|);
      }
    }
  }

  lemma {:induction false} ElementAlike(p: Policy, a: Slots, b: Slots, shown: Key, stable: Key, index: nat,
                                        fields: seq<Field>, n: nat)
    requires SlotsAlike(a, b) && n <= |fields|
    ensures ElementLines(p, a, shown, stable, index, fields, n) == ElementLines(p, b, shown, stable, index, fields, n)
    decreases fields, 1, n
  {
    hide SlotsAlike, FieldLines;
    if n > 0 {
      ElementAlike(p, a, b, shown, stable, index, fields, n - 1);
      FieldAlike(p, a, b, shown, stable, index, fields[n - 1]);
    }
  }

  lemma {:induction false} TableLinesAlike(p: Policy, a: seq<Table>, b: seq<Table>, shown: Key, stable: Key,
                                           fields: seq<Field>, n: nat)
    requires |a| == |b| && n <= |a| && forall i :: 0 <= i < |a| ==> SlotsAlike(a[i].slots, b[i].slots)
    ensures TableLines(p, a, shown, stable, fields, n) == TableLines(p, b, shown, stable, fields, n)
    decreases fields, 2, n
  {
    hide SlotsAlike, ElementLines;
    if n > 0 {
      TableLinesAlike(p, a, b, shown, stable, fields, n - 1);
      ElementAlike(p, a[n - 1].slots, b[n - 1].slots, shown, stable, n - 1, fields, |fields|);
    }
  }

  lemma {:induction false} KeyAlike(p: Policy, a: Slots, b: Slots, hidden: set<Key>, key: Key)
    requires SlotsAlike(a, b)
    ensures KeyLines(p, a, hidden, key) == KeyLines(p, b, hidden, key)
  {
    FindAlike(a, b, key);
    hide SlotsAlike, Find, DisplayValue, TableLines, Modes, Omitted, AllArrayFields;
    if Find(a, key).Some? {
      var x, y := Find(a, key).value, Find(b, key).value;
      DisplayAlike(key, x, y, At(Modes(p.defs), key, NoMode));
      if x.isTables {
        TableLinesAlike(p, x.tables, y.tables, key, key, At(AllArrayFields(p.defs), key, []), |x.tables|);
      }
    }
  }

  lemma {:induction false} ListedAlike(p: Policy, a: Slots, b: Slots, hidden: set<Key>, keys: seq<Key>, n: nat)
    requires SlotsAlike(a, b) && n <= |keys|
    ensures Listed(p, a, hidden, keys, n) == Listed(p, b, hidden, keys, n)
  {
    hide SlotsAlike, KeyLines;
    if n > 0 {
      ListedAlike(p, a, b, hidden, keys, n - 1);
      KeyAlike(p, a, b, hidden, keys[n - 1]);
    }
  }

  /** Overlays that differ only in secrets are listed alike. */
  lemma {:induction false} ListingAlike(p: Policy, a: Slots, b: Slots, x: set<Key>, y: set<Key>)
    requires SlotsAlike(a, b) && NoSecretCondition(p, a) && IsHidden(p, a, x) && IsHidden(p, b, y)
    ensures Listing(p, a, x) == Listing(p, b, y)
  {
    HiddenAlike(p, a, b, x, y);
    assert SlotKeys(a) == SlotKeys(b);
    hide SlotsAlike, Listed, KnownKeys, SlotKeys;
    ListedAlike(p, a, b, x, KnownKeys(p.defs) + SlotKeys(a), |KnownKeys(p.defs) + SlotKeys(a)|);
  }

  /**
   * Redaction: two successful loads under environments that differ only in non-empty values of
   * secret origin give the same listing, when no dependon condition reads such a value.
   */
  lemma {:induction false} RedactionHolds(p: Policy, inp: Inputs, a: Environ, b: Environ, x: set<Key>, y: set<Key>)
    requires EnvironAlike(a, b) && Loaded(inp, a).Some? && Loaded(inp, b).Some?
    requires NoSecretCondition(p, Loaded(inp, a).value)
    requires IsHidden(p, Loaded(inp, a).value, x) && IsHidden(p, Loaded(inp, b).value, y)
    ensures Listing(p, Loaded(inp, a).value, x) == Listing(p, Loaded(inp, b).value, y)
  {
    LoadedAlike(inp, a, b);
    hide SlotsAlike, Loaded, Listing, IsHidden, NoSecretCondition;
    ListingAlike(p, Loaded(inp, a).value, Loaded(inp, b).value, x, y);
  }

  // --- Why the hypothesis is there ---

  const PARENT_CHILD := Target(["p", "c"], map[], map[])

  /** A child that answers to its parent, each set by a variable of its own. */
  const SWITCHED := Policy([Definition("", PARENT_CHILD, map["c" := [D.Dependency("p", "", [])]], map[], {}, [])],
                           (s: bytes) => None)

  const SETTINGS := Inputs([PARENT_CHILD], [Flag("p", Some([0x50])), Flag("c", Some([0x43]))], None, [], [], "process")

  /** The environment of a process that sets the child's variable and takes the parent's from a secret file. */
  function SecretIn(raw: bytes): Environ {
    Composed([Source(map[[0x50] := raw], map[[0x50] := "p"], true)], map[[0x43] := [0x78]])
  }

  /** What it loads: the parent secret by origin. */
  function ParentChild(raw: bytes): Slots {
    [Slot("c", Scalar([0x78], ENV)), Slot("p", Scalar(raw, ENV_FILE + "p").(secret := true))]
  }

  lemma SecretInIs(raw: bytes)
    ensures SecretIn(raw) == Environ(I.Environment(map[[0x50] := raw, [0x43] := [0x78]], {[0x50]}), map[[0x50] := "p"])
  {
    var source := Source(map[[0x50] := raw], map[[0x50] := "p"], true);
    assert [source][..0] == [];
    assert LayAll([source]) == LayOver(LayAll([]), source);
    assert [0x43] != [0x50];
  }

  lemma SecretsAlike(x: bytes, y: bytes)
    requires x != [] && y != []
    ensures EnvironAlike(SecretIn(x), SecretIn(y))
  {
    SecretInIs(x);
    SecretInIs(y);
    hide SecretIn;
  }

  lemma LoadsParentChild(raw: bytes)
    ensures Loaded(SETTINGS, SecretIn(raw)) == Some(ParentChild(raw))
  {
    SecretInIs(raw);
    var c, flags := SecretIn(raw), SETTINGS.flags;
    hide SecretIn;
    NoDefaults();
    assert flags[..1] == [flags[0]] && [flags[0]][..0] == [];
    assert MergeEnv([], [], c) == [];
    var p, q := EnvEntry([0x50], c), EnvEntry([0x43], c);
    assert p == Scalar(raw, ENV_FILE + "p").(secret := true);
    assert q == Scalar([0x78], ENV) by {
      assert [0x43] != [0x50];
    }
    assert MergeEnv([], [flags[0]], c) == [Slot("p", p)];
    assert KeyLess("c", "p");
    assert MergeEnv([], flags, c) == [Slot("c", q)] + [Slot("p", p)];
    NotFilled(ParentChild(raw));
    NotRemoved(Slot("c", q), Slot("p", p), "process");
  }

  lemma NoDefaults()
    ensures AllDefaults([PARENT_CHILD]) == []
  {
    assert [PARENT_CHILD][..0] == [];
    assert Defaults([], PARENT_CHILD, 1) == [];
    assert Defaults([], PARENT_CHILD, 2) == [];
  }

  lemma NotRemoved(a: Slot, b: Slot, key: Key)
    requires a.key != key && b.key != key
    ensures Remove([a, b], key) == [a, b] && [a] + [b] == [a, b]
  {
    assert [a, b][1..] == [b] && [b][1..] == [];
    assert Remove([b], key) == [b];
  }

  lemma NotFilled(slots: Slots)
    ensures FillAll(slots, [PARENT_CHILD]) == slots
  {
    assert [PARENT_CHILD][..0] == [];
    assert Fill(slots, PARENT_CHILD, 1) == slots;
    assert Fill(slots, PARENT_CHILD, 2) == slots;
  }

  lemma ParentFails(raw: bytes)
    ensures ConditionFails(SWITCHED, ParentChild(raw), D.Dependency("p", "", [])) <==> raw == [] || raw == FALSE
  {
    var defs, s := SWITCHED.defs, ParentChild(raw);
    assert defs[..0] == [] && defs[0].target.falsy == map[];
    assert Provenance.Falsy([]) == map[] && Kinds([]) == map[];
    assert Kinds(defs) == map[] && Provenance.Falsy(defs) == map[];
    assert "c" != "p" && s[1..][0].key == "p";
    assert Find(s[1..], "p") == Some(Scalar(raw, ENV_FILE + "p").(secret := true));
    assert Find(s, "p") == Find(s[1..], "p");
    hide Kinds, Provenance.Falsy, ParentChild, SWITCHED, Find;
  }

  lemma ChildHidden(raw: bytes, hidden: set<Key>)
    requires IsHidden(SWITCHED, ParentChild(raw), hidden)
    ensures "c" in hidden <==> raw == [] || raw == FALSE
    ensures "p" !in hidden
  {
    var defs := SWITCHED.defs;
    assert defs[..0] == [];
    assert Conditions(defs, "c") == [] + [D.Dependency("p", "", [])] == [D.Dependency("p", "", [])];
    assert ConditionKeys(defs) == {"c"};
    var parents, fails := Parents(defs), Fails(SWITCHED, ParentChild(raw));
    ParentFails(raw);
    D.HiddenRule(parents, fails, "p");
    D.HiddenRule(parents, fails, "c");
  }

  lemma ChildListed(raw: bytes, hidden: set<Key>)
    requires raw != [] && "p" !in hidden
    ensures |Listing(SWITCHED, ParentChild(raw), hidden)| == if "c" in hidden then 1 else 2
  {
    var s, keys := ParentChild(raw), ["p", "c", "c", "p"];
    assert SWITCHED.defs[..0] == [];
    assert KnownKeys(SWITCHED.defs) + SlotKeys(s) == keys;
    assert Modes(SWITCHED.defs) == map[];
    assert "c" != "p" && s[1..][0].key == "p";
    assert Find(s, "p") == Some(Scalar(raw, ENV_FILE + "p").(secret := true)) && Find(s, "c") == Some(Scalar([0x78], ENV));
    assert |KeyLines(SWITCHED, s, hidden, "p")| == 1;
    assert |KeyLines(SWITCHED, s, hidden, "c")| == if "c" in hidden then 0 else 1;
    hide KeyLines;
    assert keys[..0] == [] && keys[..1] == ["p"] && keys[..2] == ["p", "c"] && keys[..3] == ["p", "c", "c"];
    assert |Listed(SWITCHED, s, hidden, keys, 1)| == 1;
    assert |Listed(SWITCHED, s, hidden, keys, 2)| == if "c" in hidden then 1 else 2;
    assert Listed(SWITCHED, s, hidden, keys, 3) == Listed(SWITCHED, s, hidden, keys, 2) + [];
    assert Listed(SWITCHED, s, hidden, keys, 4) == Listed(SWITCHED, s, hidden, keys, 3) + [];
  }

  /** A condition on a secret value shows it: two loads that differ only in that secret are listed differently. */
  lemma SecretConditionShows(x: set<Key>, y: set<Key>)
    requires Loaded(SETTINGS, SecretIn(FALSE)).Some? && Loaded(SETTINGS, SecretIn([0x79])).Some?
    requires IsHidden(SWITCHED, Loaded(SETTINGS, SecretIn(FALSE)).value, x)
    requires IsHidden(SWITCHED, Loaded(SETTINGS, SecretIn([0x79])).value, y)
    ensures EnvironAlike(SecretIn(FALSE), SecretIn([0x79]))
    ensures Listing(SWITCHED, Loaded(SETTINGS, SecretIn(FALSE)).value, x) !=
            Listing(SWITCHED, Loaded(SETTINGS, SecretIn([0x79])).value, y)
  {
    hide Listing, IsHidden, ParentChild, Loaded, SecretIn, SWITCHED, SETTINGS, EnvironAlike;
    SecretsAlike(FALSE, [0x79]);
    LoadsParentChild(FALSE);
    LoadsParentChild([0x79]);
    ChildHidden(FALSE, x);
    ChildHidden([0x79], y);
    ChildListed(FALSE, x);
    ChildListed([0x79], y);
  }
}
