/**
 * The overlay the configuration layers write into: one winning entry per key, a later write
 * replacing an earlier one and with it any mark of secret origin.
 */
module ConfigOverlay {
  import opened ByteStrings

  type Key = string

  /** The layers a value can come from; a dotenv file's place carries its path. */
  const DEFAULT := "default"
  const FILE := "file_toml"
  const ENV := "env"
  const CLI := "cli"
  const ENV_FILE := "file_env:"

  /** One winning value: a scalar, a list with its comma join, or the elements of an array of tables. */
  datatype Entry = Entry(raw: bytes, multi: Option<seq<bytes>>, isTables: bool, tables: seq<Table>, place: string, secret: bool)

  datatype Slot = Slot(key: Key, entry: Entry)

  /** One element of an array of tables. */
  datatype Table = Table(slots: Slots)

  /** A Go map, its keys in order. */
  type Slots = seq<Slot>

  function Codes(s: string): seq<int> {
    seq(|s|, i requires 0 <= i < |s| => s[i] as int)
  }

  predicate KeyLess(a: Key, b: Key) {
    Less(Codes(a), Codes(b))
  }

  function Find(slots: Slots, key: Key): Option<Entry> {
    if slots == [] then None
    else if slots[0].key == key then Some(slots[0].entry)
    else Find(slots[1..], key)
  }

  function Put(slots: Slots, key: Key, e: Entry): Slots {
    if slots == [] then [Slot(key, e)]
    else if slots[0].key == key then [Slot(key, e)] + slots[1..]
    else if KeyLess(key, slots[0].key) then [Slot(key, e)] + slots
    else [slots[0]] + Put(slots[1..], key, e)
  }

  function Remove(slots: Slots, key: Key): Slots {
    if slots == [] then []
    else if slots[0].key == key then slots[1..]
    else [slots[0]] + Remove(slots[1..], key)
  }

  function Scalar(raw: bytes, place: string): Entry {
    Entry(raw, None, false, [], place, false)
  }

  function Multi(values: seq<bytes>, place: string): Entry {
    Entry(Join(values), Some(values), false, [], place, false)
  }

  function Tables(tables: seq<Table>, place: string): Entry {
    Entry([], None, true, tables, place, false)
  }

  /** The forms of an entry: a scalar, a list with its comma join, an array of tables; none is marked when written. */
  lemma Forms(raw: bytes, values: seq<bytes>, tables: seq<Table>, place: string)
    ensures var e := Scalar(raw, place); e.raw == raw && e.multi.None? && !e.isTables && |e.tables| == 0 && e.place == place && !e.secret
    ensures var e := Multi(values, place);
            e.raw == Join(values) && e.multi == Some(values) && !e.isTables && |e.tables| == 0 && e.place == place && !e.secret
    ensures var e := Tables(tables, place);
            |e.raw| == 0 && e.multi.None? && e.isTables && e.tables == tables && e.place == place && !e.secret
  {
  }

  function Marked(slots: Slots, key: Key): Slots {
    match Find(slots, key)
    case None => slots
    case Some(e) => Put(slots, key, e.(secret := true))
  }

  /** Keys strictly ascend, so each is there once. */
  predicate Ascending(slots: Slots) {
    slots == [] || ((forall i :: 1 <= i < |slots| ==> KeyLess(slots[0].key, slots[i].key)) && Ascending(slots[1..]))
  }

  lemma KeyLessTotal(a: Key, b: Key)
    ensures KeyLess(a, b) || a == b || KeyLess(b, a)
    ensures !(KeyLess(a, b) && KeyLess(b, a)) && (a == b ==> !KeyLess(a, b))
  {
    LessTotal(Codes(a), Codes(b));
    hide Less;
    if Codes(a) == Codes(b) {
      assert forall i :: 0 <= i < |a| ==> Codes(a)[i] == a[i] as int && Codes(b)[i] == b[i] as int;
    }
  }

  lemma KeyLessTransitive(a: Key, b: Key, c: Key)
    requires KeyLess(a, b) && KeyLess(b, c)
    ensures KeyLess(a, c)
  {
    LessTransitive(Codes(a), Codes(b), Codes(c));
  }

  /** A write is read back, and no other key notices. */
  lemma {:induction false} FindPut(slots: Slots, key: Key, e: Entry, other: Key)
    ensures Find(Put(slots, key, e), other) == if other == key then Some(e) else Find(slots, other)
  {
    if slots != [] && slots[0].key != key && !KeyLess(key, slots[0].key) {
      FindPut(slots[1..], key, e, other);
    }
  }

  lemma {:induction false} FindRemove(slots: Slots, key: Key, other: Key)
    requires other != key
    ensures Find(Remove(slots, key), other) == Find(slots, other)
  {
    if slots != [] && slots[0].key != key {
      FindRemove(slots[1..], key, other);
    }
  }

  lemma {:induction false} PutTwice(slots: Slots, key: Key, a: Entry, b: Entry)
    ensures Put(Put(slots, key, a), key, b) == Put(slots, key, b)
  {
    KeyLessTotal(key, key);
    if slots != [] && slots[0].key != key && !KeyLess(key, slots[0].key) {
      PutTwice(slots[1..], key, a, b);
    }
  }

  /** Writing and then marking is writing a marked entry. */
  lemma PutMarked(slots: Slots, key: Key, e: Entry)
    ensures Marked(Put(slots, key, e), key) == Put(slots, key, e.(secret := true))
  {
    FindPut(slots, key, e, key);
    PutTwice(slots, key, e, e.(secret := true));
  }

  lemma {:induction false} PutKeys(slots: Slots, key: Key, e: Entry, i: nat)
    requires i < |Put(slots, key, e)|
    ensures Put(slots, key, e)[i].key == key || exists j :: 0 <= j < |slots| && slots[j].key == Put(slots, key, e)[i].key
  {
    if slots != [] {
      if slots[0].key != key && KeyLess(key, slots[0].key) {
        assert i > 0 ==> Put(slots, key, e)[i] == slots[i - 1];
      } else if slots[0].key != key && i > 0 {
        PutKeys(slots[1..], key, e, i - 1);
        if j :| 0 <= j < |slots[1..]| && slots[1..][j].key == Put(slots[1..], key, e)[i - 1].key {
          assert slots[j + 1].key == Put(slots, key, e)[i].key;
        }
      } else {
        assert slots[i].key == slots[i].key;
      }
    }
  }

  /** Writing keeps the keys in order. */
  lemma {:induction false} PutAscends(slots: Slots, key: Key, e: Entry)
    requires Ascending(slots)
    ensures Ascending(Put(slots, key, e))
  {
    if slots != [] {
      var first := slots[0].key;
      KeyLessTotal(key, first);
      if key != first && KeyLess(key, first) {
        forall i | 1 <= i < |slots| ensures KeyLess(key, slots[i].key) {
          KeyLessTransitive(key, first, slots[i].key);
        }
      } else if key != first {
        var rest := Put(slots[1..], key, e);
        PutAscends(slots[1..], key, e);
        forall i | 0 <= i < |rest| ensures KeyLess(first, rest[i].key) {
          PutKeys(slots[1..], key, e, i);
        }
        assert ([slots[0]] + rest)[1..] == rest;
      }
    }
  }

  lemma {:induction false} FindAbsent(slots: Slots, key: Key)
    requires forall i :: 0 <= i < |slots| ==> slots[i].key != key
    ensures Find(slots, key) == None
  {
    if slots != [] {
      FindAbsent(slots[1..], key);
    }
  }

  lemma {:induction false} RemoveKeys(slots: Slots, key: Key, i: nat)
    requires i < |Remove(slots, key)|
    ensures exists j :: (if slots[0].key == key then 1 else 0) <= j < |slots| && slots[j] == Remove(slots, key)[i]
  {
    if slots[0].key == key {
      assert slots[i + 1] == Remove(slots, key)[i];
    } else if i == 0 {
      assert slots[0] == Remove(slots, key)[0];
    } else {
      RemoveKeys(slots[1..], key, i - 1);
      var j :| 0 <= j < |slots[1..]| && slots[1..][j] == Remove(slots[1..], key)[i - 1];
      assert slots[j + 1] == Remove(slots, key)[i];
    }
  }

  /** Deleting keeps the keys in order, and the key is gone. */
  lemma {:induction false} RemoveAscends(slots: Slots, key: Key)
    requires Ascending(slots)
    ensures Ascending(Remove(slots, key)) && Find(Remove(slots, key), key) == None
  {
    if slots != [] {
      var rest := Remove(slots[1..], key);
      if slots[0].key == key {
        forall i | 0 <= i < |slots[1..]| ensures slots[1..][i].key != key {
          KeyLessTotal(slots[0].key, slots[i + 1].key);
        }
        FindAbsent(slots[1..], key);
      } else {
        RemoveAscends(slots[1..], key);
        forall i | 0 <= i < |rest| ensures KeyLess(slots[0].key, rest[i].key) {
          RemoveKeys(slots[1..], key, i);
        }
        assert ([slots[0]] + rest)[1..] == rest;
      }
    }
  }

  // --- The overlay ---

  class Overlay {
    var entries: Slots

    constructor ()
      ensures entries == []
    {
      entries := [];
    }

    function Get(key: Key): Option<Entry>
      reads this
    {
      Find(entries, key)
    }

    /** A scalar from a place; whatever mark the key had is gone with its old value. */
    method Set(key: Key, raw: bytes, place: string)
      modifies this
      ensures entries == Put(old(entries), key, Scalar(raw, place))
      ensures Get(key) == Some(Scalar(raw, place)) && forall k :: k != key ==> Get(k) == Find(old(entries), k)
      ensures Ascending(old(entries)) ==> Ascending(entries)
    {
      Write(key, Scalar(raw, place));
    }

    method SetMulti(key: Key, values: seq<bytes>, place: string)
      modifies this
      ensures entries == Put(old(entries), key, Multi(values, place))
      ensures Get(key) == Some(Multi(values, place)) && forall k :: k != key ==> Get(k) == Find(old(entries), k)
      ensures Ascending(old(entries)) ==> Ascending(entries)
    {
      Write(key, Multi(values, place));
    }

    method SetTables(key: Key, tables: seq<Table>, place: string)
      modifies this
      ensures entries == Put(old(entries), key, Tables(tables, place))
      ensures Get(key) == Some(Tables(tables, place)) && forall k :: k != key ==> Get(k) == Find(old(entries), k)
      ensures Ascending(old(entries)) ==> Ascending(entries)
    {
      Write(key, Tables(tables, place));
    }

    method Write(key: Key, e: Entry)
      modifies this
      ensures entries == Put(old(entries), key, e)
      ensures Get(key) == Some(e) && forall k :: k != key ==> Get(k) == Find(old(entries), k)
      ensures Ascending(old(entries)) ==> Ascending(entries)
    {
      forall k {
        FindPut(entries, key, e, k);
      }
      if Ascending(entries) {
        PutAscends(entries, key, e);
      }
      entries := Put(entries, key, e);
    }

    /** Flags a present entry as secret by origin; an absent key stays absent. */
    method MarkSecret(key: Key)
      modifies this
      ensures entries == Marked(old(entries), key)
      ensures forall k :: k != key ==> Get(k) == Find(old(entries), k)
      ensures Ascending(old(entries)) ==> Ascending(entries)
    {
      match Get(key) {
        case None =>
        case Some(e) => Write(key, e.(secret := true));
      }
    }

    method Delete(key: Key)
      modifies this
      ensures entries == Remove(old(entries), key)
      ensures forall k :: k != key ==> Get(k) == Find(old(entries), k)
      ensures Ascending(old(entries)) ==> Ascending(entries) && Get(key) == None
    {
      forall k | k != key {
        FindRemove(entries, key, k);
      }
      if Ascending(entries) {
        RemoveAscends(entries, key);
      }
      entries := Remove(entries, key);
    }
  }
}
