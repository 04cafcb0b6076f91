/**
 * The row scanner generated for a grouped SQL result. The emitter turns a tree of struct plans
 * into statements that look a composite key up in an index map and append or revisit one
 * element; running them over the rows builds the nested group-by of those rows.
 */
module SqlGroup {
  import opened ByteStrings

  // --- Plans and rows ---

  datatype Field =
    | Scalar(name: string, column: string, kind: string, groupKey: bool)
    | Struct(name: string, plan: Plan)
    | Slice(name: string, plan: Plan)
    | Unmapped(name: string)

  datatype Plan = Plan(fields: seq<Field>)

  /** A column value: SQL NULL, or the text the driver's value formats to. */
  datatype Cell = Null | Value(text: string)

  type Row = map<string, Cell>

  /** What the typed readers make of a cell of a kind, or their refusal. */
  type Reader = (string, Cell) -> Option<Cell>

  datatype Node = Node(cells: seq<Cell>, lists: seq<seq<Node>>)

  function KeyColumns(fields: seq<Field>): seq<string> {
    if fields == [] then []
    else (if fields[0].Scalar? && fields[0].groupKey then [fields[0].column] else []) + KeyColumns(fields[1..])
  }

  predicate HasKey(plan: Plan) {
    |KeyColumns(plan.fields)| == 1
  }

  function KeyColumn(plan: Plan): string {
    if HasKey(plan) then KeyColumns(plan.fields)[0] else ""
  }

  predicate IsKey(f: Field) {
    f.Scalar? && f.groupKey
  }

  predicate NoKey(fields: seq<Field>) {
    forall i :: 0 <= i < |fields| ==> !IsKey(fields[i])
  }

  predicate OnlyKey(fields: seq<Field>, i: nat) {
    i < |fields| && IsKey(fields[i]) && forall j :: 0 <= j < |fields| && j != i ==> !IsKey(fields[j])
  }

  lemma KeyFirst(fields: seq<Field>)
    requires fields != []
    ensures NoKey(fields) <==> !IsKey(fields[0]) && NoKey(fields[1..])
    ensures OnlyKey(fields, 0) <==> IsKey(fields[0]) && NoKey(fields[1..])
  {
    assert forall i :: 1 <= i < |fields| ==> fields[1..][i - 1] == fields[i];
    hide IsKey;
  }

  lemma KeyLater(fields: seq<Field>, i: nat)
    requires fields != []
    ensures OnlyKey(fields, i + 1) <==> !IsKey(fields[0]) && OnlyKey(fields[1..], i)
  {
    assert forall j :: 1 <= j < |fields| ==> fields[1..][j - 1] == fields[j];
    hide IsKey;
  }

  lemma {:induction false} KeyColumnsAre(fields: seq<Field>)
    ensures KeyColumns(fields) == [] <==> NoKey(fields)
    ensures |KeyColumns(fields)| == 1 <==> exists i: nat :: OnlyKey(fields, i)
    ensures forall i: nat :: OnlyKey(fields, i) ==> fields[i].Scalar? && KeyColumns(fields) == [fields[i].column]
  {
    if fields != [] {
      KeyColumnsAre(fields[1..]);
      KeyFirst(fields);
      hide NoKey, OnlyKey;
      if exists i: nat :: OnlyKey(fields[1..], i) {
        var i: nat :| OnlyKey(fields[1..], i);
        KeyLater(fields, i);
      }
      forall i: nat | OnlyKey(fields, i) ensures fields[i].Scalar? && KeyColumns(fields) == [fields[i].column] {
        OnlyInside(fields, i);
        if i > 0 {
          KeyLater(fields, i - 1);
        }
      }
    }
  }

  lemma OnlyInside(fields: seq<Field>, i: nat)
    requires OnlyKey(fields, i)
    ensures i < |fields| && fields[i].Scalar?
  {
  }

  /** A plan has a key when one scalar of it, and no other, is its group key; that is the column. */
  lemma HasKeyExactly(plan: Plan)
    ensures HasKey(plan) <==> exists i: nat :: OnlyKey(plan.fields, i)
    ensures forall i: nat :: OnlyKey(plan.fields, i) ==> plan.fields[i].Scalar? && KeyColumn(plan) == plan.fields[i].column
  {
    KeyColumnsAre(plan.fields);
    hide OnlyKey;
  }

  /** Every slice the emitter descends to has exactly one group key. */
  predicate Keyed(fields: seq<Field>) {
    fields == [] ||
    (&& (match fields[0]
         case Slice(_, plan) => HasKey(plan) && Keyed(plan.fields)
         case Struct(_, plan) => Keyed(plan.fields)
         case _ => true)
     && Keyed(fields[1..]))
  }

  /** The zero value's slices: all empty. */
  function ZeroLists(fields: seq<Field>): seq<seq<Node>> {
    if fields == [] then []
    else (if fields[0].Slice? then [[]] else []) + ZeroLists(fields[1..])
  }

  /** The scalars of a struct read from a row, those of nested structs included. */
  function Fill(fields: seq<Field>, row: Row, read: Reader): Option<seq<Cell>> {
    if fields == [] then Some([])
    else
      var head := match fields[0]
        case Scalar(_, column, kind, _) =>
          if column !in row then None
          else (match read(kind, row[column]) case Some(cell) => Some([cell]) case None => None)
        case Struct(_, plan) => Fill(plan.fields, row, read)
        case _ => Some([]);
      if head.None? then None
      else match Fill(fields[1..], row, read)
        case None => None
        case Some(rest) => Some(head.value + rest)
  }

  /** A scalar a row is read into: its column and what it is read as. */
  datatype Leaf = Leaf(column: string, kind: string)

  /** The scalars of a struct in order, those of nested structs where the struct stands. */
  function Leaves(fields: seq<Field>): seq<Leaf> {
    if fields == [] then []
    else
      (match fields[0]
       case Scalar(_, column, kind, _) => [Leaf(column, kind)]
       case Struct(_, plan) => Leaves(plan.fields)
       case _ => [])
      + Leaves(fields[1..])
  }

  /** The row has the leaf's column, and the leaf's reader takes what is there. */
  predicate Takes(leaf: Leaf, row: Row, read: Reader) {
    leaf.column in row && read(leaf.kind, row[leaf.column]).Some?
  }

  /** Cells are what the readers of some leaves make of a row, one by one. */
  predicate CellsRead(cells: seq<Cell>, leaves: seq<Leaf>, row: Row, read: Reader) {
    && |cells| == |leaves|
    && forall i :: 0 <= i < |leaves| ==>
         Takes(leaves[i], row, read) && cells[i] == read(leaves[i].kind, row[leaves[i].column]).value
  }

  /** Every leaf can be read, and these are the cells; or some leaf cannot. */
  predicate ReadOrRefused(cells: Option<seq<Cell>>, leaves: seq<Leaf>, row: Row, read: Reader) {
    && (cells.Some? <==> forall i :: 0 <= i < |leaves| ==> Takes(leaves[i], row, read))
    && (cells.Some? ==> CellsRead(cells.value, leaves, row, read))
  }

  lemma ReadBoth(a: Option<seq<Cell>>, b: Option<seq<Cell>>, x: seq<Leaf>, y: seq<Leaf>, row: Row, read: Reader)
    requires ReadOrRefused(a, x, row, read) && ReadOrRefused(b, y, row, read)
    ensures ReadOrRefused(if a.Some? && b.Some? then Some(a.value + b.value) else None, x + y, row, read)
  {
    if a.None? {
      var i :| 0 <= i < |x| && !Takes(x[i], row, read);
      assert (x + y)[i] == x[i];
      assert !Takes((x + y)[i], row, read);
    } else if b.None? {
      var i :| 0 <= i < |y| && !Takes(y[i], row, read);
      assert (x + y)[|x| + i] == y[i];
      assert !Takes((x + y)[|x| + i], row, read);
    } else {
      assert CellsRead(a.value + b.value, x + y, row, read);
    }
  }

  lemma ReadOne(column: string, kind: string, row: Row, read: Reader)
    ensures var cells := if column in row && read(kind, row[column]).Some? then Some([read(kind, row[column]).value]) else None;
            ReadOrRefused(cells, [Leaf(column, kind)], row, read)
  {
    var leaves := [Leaf(column, kind)];
    assert Takes(leaves[0], row, read) <==> column in row && read(kind, row[column]).Some?;
  }

  /** A struct can be read exactly when each of its leaves can, and holds then what their readers make of the row. */
  lemma {:induction false} FillReads(fields: seq<Field>, row: Row, read: Reader)
    ensures ReadOrRefused(Fill(fields, row, read), Leaves(fields), row, read)
  {
    if fields != [] {
      var filled, leaves := Fill(fields[1..], row, read), Leaves(fields[1..]);
      FillReads(fields[1..], row, read);
      match fields[0] {
        case Scalar(_, column, kind, _) =>
          ReadOne(column, kind, row, read);
          hide ReadOrRefused;
          ReadBoth(if column in row && read(kind, row[column]).Some? then Some([read(kind, row[column]).value]) else None,
                   filled, [Leaf(column, kind)], leaves, row, read);
        case Struct(_, plan) =>
          FillReads(plan.fields, row, read);
          hide ReadOrRefused;
          ReadBoth(Fill(plan.fields, row, read), filled, Leaves(plan.fields), leaves, row, read);
        case _ =>
          assert [] + leaves == leaves && (filled.Some? ==> [] + filled.value == filled.value);
          hide ReadOrRefused;
      }
    }
  }

  // --- The specification: a nested group-by ---

  predicate Has(row: Row, column: string) {
    column in row && row[column].Value?
  }

  /** The distinct keys of a column, in the order they first appear; NULL is no key. */
  function Keys(rows: seq<Row>, column: string): seq<string> {
    if rows == [] then []
    else
      var before, row := Keys(rows[..|rows| - 1], column), rows[|rows| - 1];
      if Has(row, column) && row[column].text !in before then before + [row[column].text] else before
  }

  /** The rows with one key. */
  function With(rows: seq<Row>, column: string, key: string): seq<Row> {
    if rows == [] then []
    else
      var before, row := With(rows[..|rows| - 1], column, key), rows[|rows| - 1];
      if Has(row, column) && row[column].text == key then before + [row] else before
  }

  /** One element per distinct key, grouped again below from that key's rows alone. */
  function Group(rows: seq<Row>, plan: Plan, read: Reader): seq<Node>
    decreases plan, 1
  {
    var keys := Keys(rows, KeyColumn(plan));
    seq(|keys|, i requires 0 <= i < |keys| => GroupOne(With(rows, KeyColumn(plan), keys[i]), plan, read))
  }

  /** The element of one key: its scalars from its first row, its slices from all its rows. */
  function GroupOne(rows: seq<Row>, plan: Plan, read: Reader): Node
    decreases plan, 0
  {
    Node(if rows == [] then [] else Fill(plan.fields, rows[0], read).GetOr([]), GroupLists(rows, plan.fields, read))
  }

  function GroupLists(rows: seq<Row>, fields: seq<Field>, read: Reader): seq<seq<Node>>
    decreases fields
  {
    if fields == [] then []
    else (if fields[0].Slice? then [Group(rows, fields[0].plan, read)] else []) + GroupLists(rows, fields[1..], read)
  }

  /** A row can be read below an element: each key column reached exists, and each new element fills. */
  predicate Reads(rows: seq<Row>, row: Row, fields: seq<Field>, read: Reader)
    decreases fields
  {
    fields == [] ||
    (&& (fields[0].Slice? ==> ReadsOne(rows, row, fields[0].plan, read))
     && Reads(rows, row, fields[1..], read))
  }

  predicate ReadsOne(rows: seq<Row>, row: Row, plan: Plan, read: Reader)
    decreases plan
  {
    var column := KeyColumn(plan);
    && column in row
    && (row[column].Value? ==>
          && (row[column].text in Keys(rows, column) || Fill(plan.fields, row, read).Some?)
          && Reads(With(rows, column, row[column].text), row, plan.fields, read))
  }

  /** Every row reads after those before it, and no root key is NULL. */
  predicate AllRead(rows: seq<Row>, plan: Plan, read: Reader) {
    rows == [] ||
    var before, row := rows[..|rows| - 1], rows[|rows| - 1];
    && AllRead(before, plan, read)
    && Has(row, KeyColumn(plan))
    && ReadsOne(before, row, plan, read)
  }

  // --- The emitted program ---

  predicate IsIdentRune(c: char) {
    'a' <= c <= 'z' || 'A' <= c <= 'Z' || '0' <= c <= '9' || c as int >= 0x80
  }

  /** An identifier keeps the letters and digits: those of ASCII, and every character beyond it. */
  lemma IdentRunes(c: char)
    ensures c as int < 0x80 ==> (IsIdentRune(c) <==> c in CAPITALS || c in SMALL || c in DIGITS)
    ensures c as int >= 0x80 ==> IsIdentRune(c)
  {
    DigitsInOrder(c);
    if 'a' <= c <= 'z' {
      LettersAre(c as int - 'a' as int);
      assert SMALL[c as int - 'a' as int] == c;
    } else if 'A' <= c <= 'Z' {
      LettersAre(c as int - 'A' as int);
      assert CAPITALS[c as int - 'A' as int] == c;
    }
    forall i | 0 <= i < 26 ensures CAPITALS[i] as int == 0x41 + i && SMALL[i] as int == 0x61 + i {
      LettersAre(i);
    }
  }

  function SqlIdent(s: string): string {
    if s == [] then []
    else (if IsIdentRune(s[0]) then [s[0]] else []) + SqlIdent(s[1..])
  }

  /** The string variables of the emitted code: the root's key, a slice's key, and its composite key. */
  const ROOT_KEY := "rootKey"

  function KeyVar(id: string): string {
    id + "Key"
  }

  function CompositeVar(id: string): string {
    id + "CompositeKey"
  }

  /** An assignable place: an element of the result, of a slice in a place, or a struct field of one. */
  datatype Place = Root | Elem(of: Place, slot: nat, id: string) | Sub(of: Place, name: string)

  /**
   * Read the child's key, and in a block of its own join it to the parent's, look the composite up,
   * append or revisit the element, then run the element's own slices.
   */
  datatype Stmt = Child(id: string, parent: string, target: Place, slot: nat, plan: Plan, body: seq<Stmt>)

  datatype Program = Program(plan: Plan, decls: seq<string>, body: seq<Stmt>)

  function EmitFields(fields: seq<Field>, slot: nat, target: Place, parent: string, path: string): seq<Stmt> {
    if fields == [] then []
    else
      match fields[0]
      case Struct(name, plan) =>
        EmitFields(plan.fields, 0, Sub(target, name), parent, path + name)
        + EmitFields(fields[1..], slot, target, parent, path)
      case Slice(name, plan) =>
        [EmitChild(fields[0], slot, target, parent, path)] + EmitFields(fields[1..], slot + 1, target, parent, path)
      case _ => EmitFields(fields[1..], slot, target, parent, path)
  }

  function EmitChild(f: Field, slot: nat, target: Place, parent: string, path: string): Stmt
    requires f.Slice?
  {
    var id := SqlIdent(path + f.name);
    Child(id, parent, target, slot, f.plan,
          EmitFields(f.plan.fields, 0, Elem(target, slot, id), CompositeVar(id), path + f.name))
  }

  /** The index maps declared ahead of the loop: slices directly in a plan, not those in a struct field. */
  function IndexDecls(fields: seq<Field>, path: string): seq<string> {
    if fields == [] then []
    else
      (match fields[0]
       case Slice(name, plan) => [SqlIdent(path + name)] + IndexDecls(plan.fields, path + name)
       case _ => [])
      + IndexDecls(fields[1..], path)
  }

  // --- Running it ---

  /** The string variables of one block. */
  type Scope = map<string, string>

  /** The value a name stands for: that of the innermost block that declares it. */
  function ValueIn(scopes: seq<Scope>, name: string): Option<string> {
    if scopes == [] then None
    else if name in scopes[|scopes| - 1] then Some(scopes[|scopes| - 1][name])
    else ValueIn(scopes[..|scopes| - 1], name)
  }

  /** The innermost of the blocks that declare a name gives its value. */
  lemma {:induction false} ValueInExactly(scopes: seq<Scope>, name: string)
    ensures ValueIn(scopes, name).Some? <==> exists i :: 0 <= i < |scopes| && name in scopes[i]
    ensures forall i :: 0 <= i < |scopes| && name in scopes[i] && (forall j :: i < j < |scopes| ==> name !in scopes[j]) ==>
              ValueIn(scopes, name) == Some(scopes[i][name])
  {
    if scopes != [] {
      var last := |scopes| - 1;
      ValueInExactly(scopes[..last], name);
      assert forall i :: 0 <= i < last ==> scopes[..last][i] == scopes[i];
      if ValueIn(scopes[..last], name).Some? {
        var i :| 0 <= i < last && name in scopes[..last][i];
        assert name in scopes[i];
      }
    }
  }

  /** A short declaration: a new variable of the innermost block, or an assignment to one it has already. */
  function Declare(scopes: seq<Scope>, name: string, value: string): seq<Scope>
    requires scopes != []
  {
    scopes[|scopes| - 1 := scopes[|scopes| - 1][name := value]]
  }

  /** The scopes in a slice's block: its key declared outside, its composite key inside. */
  function Opened(scopes: seq<Scope>, id: string, key: string, composite: string): seq<Scope>
    requires scopes != []
  {
    Declare(scopes, KeyVar(id), key) + [map[CompositeVar(id) := composite]]
  }

  /** The innermost block ends. */
  function Closed(o: Outcome): Outcome {
    match o
    case Done(s) => if s.scopes == [] then Stuck else Done(s.(scopes := s.scopes[..|s.scopes| - 1]))
    case _ => o
  }

  datatype State = State(
    out: seq<Node>,
    rootIndexes: map<string, nat>,
    indexes: map<string, map<string, nat>>,
    rootPos: nat,
    scopes: seq<Scope>,
    positions: map<string, nat>)

  /** Failed is an error return; Stuck is a use of something undeclared or out of range. */
  datatype Outcome = Done(state: State) | Failed | Stuck

  datatype Step = Step(slot: nat, pos: nat)

  function Resolve(p: Place, positions: map<string, nat>): Option<seq<Step>> {
    match p
    case Root => Some([])
    case Sub(_, _) => None
    case Elem(of, slot, id) =>
      match Resolve(of, positions)
      case None => None
      case Some(steps) => if id in positions then Some(steps + [Step(slot, positions[id])]) else None
  }

  predicate Inside(n: Node, steps: seq<Step>)
    decreases |steps|
  {
    steps == [] ||
    (&& steps[0].slot < |n.lists| && steps[0].pos < |n.lists[steps[0].slot]|
     && Inside(n.lists[steps[0].slot][steps[0].pos], steps[1..]))
  }

  function Get(n: Node, steps: seq<Step>): Node
    requires Inside(n, steps)
    decreases |steps|
  {
    if steps == [] then n else Get(n.lists[steps[0].slot][steps[0].pos], steps[1..])
  }

  function Put(n: Node, steps: seq<Step>, new_: Node): Node
    requires Inside(n, steps)
    decreases |steps|
  {
    if steps == [] then new_
    else
      var slot, pos := steps[0].slot, steps[0].pos;
      Set(n, slot, pos, Put(n.lists[slot][pos], steps[1..], new_))
  }

  function Set(n: Node, slot: nat, pos: nat, child: Node): Node
    requires slot < |n.lists| && pos < |n.lists[slot]|
  {
    n.(lists := n.lists[slot := n.lists[slot][pos := child]])
  }

  function Append(n: Node, slot: nat, child: Node): Node
    requires slot < |n.lists|
  {
    n.(lists := n.lists[slot := n.lists[slot] + [child]])
  }

  function Exec(stmts: seq<Stmt>, row: Row, read: Reader, s: State): Outcome {
    if stmts == [] then Done(s)
    else
      match ExecChild(stmts[0], row, read, s)
      case Done(t) => Exec(stmts[1..], row, read, t)
      case other => other
  }

  function ExecChild(c: Stmt, row: Row, read: Reader, s: State): Outcome {
    var column := KeyColumn(c.plan);
    if column !in row then Failed
    else if s.scopes == [] then Stuck
    else
      var key := if row[column].Value? then row[column].text else "";
      var scopes := Declare(s.scopes, KeyVar(c.id), key);
      if row[column].Null? then Done(s.(scopes := scopes))
      else if ValueIn(scopes, c.parent).None? || c.id !in s.indexes then Stuck
      else
        var composite := ValueIn(scopes, c.parent).value + NUL + key;
        match Locate(c, composite, row, read, s.(scopes := Opened(s.scopes, c.id, key, composite)))
        case Done(t) => Closed(Exec(c.body, row, read, t))
        case other => other
  }

  /** The position of the child, after appending it when its key is new. */
  function Locate(c: Stmt, composite: string, row: Row, read: Reader, s: State): Outcome
    requires c.id in s.indexes
  {
    if composite in s.indexes[c.id] then
      Done(s.(positions := s.positions[c.id := s.indexes[c.id][composite]]))
    else
      match Fill(c.plan.fields, row, read)
      case None => Failed
      case Some(cells) =>
        match Resolve(c.target, s.positions)
        case None => Stuck
        case Some(steps) =>
          if s.rootPos >= |s.out| || !Inside(s.out[s.rootPos], steps) then Stuck
          else
            var n := Get(s.out[s.rootPos], steps);
            if c.slot >= |n.lists| then Stuck
            else
              var pos: nat := |n.lists[c.slot]|;
              var index: map<string, nat> := s.indexes[c.id][composite := pos];
              var grown := Append(n, c.slot, Node(cells, ZeroLists(c.plan.fields)));
              Done(s.(out := s.out[s.rootPos := Put(s.out[s.rootPos], steps, grown)],
                      positions := s.positions[c.id := pos],
                      indexes := s.indexes[c.id := index]))
  }

  /** One row: its root element, appended when its key is new, then the slices below. */
  function ExecRow(p: Program, row: Row, read: Reader, s: State): Outcome {
    var column := KeyColumn(p.plan);
    if column !in row || row[column].Null? then Failed
    else
      var key := row[column].text;
      var t := s.(scopes := [map[ROOT_KEY := key]], positions := map[]);
      if key in s.rootIndexes then Exec(p.body, row, read, t.(rootPos := s.rootIndexes[key]))
      else
        match Fill(p.plan.fields, row, read)
        case None => Failed
        case Some(cells) =>
          var pos: nat := |s.out|;
          Exec(p.body, row, read, t.(out := s.out + [Node(cells, ZeroLists(p.plan.fields))],
                                     rootPos := pos, rootIndexes := s.rootIndexes[key := pos]))
  }

  function Start(p: Program): State {
    State([], map[], map id | id in p.decls :: map[], 0, [], map[])
  }

  function ExecRows(p: Program, rows: seq<Row>, read: Reader): Outcome {
    if rows == [] then Done(Start(p))
    else
      match ExecRows(p, rows[..|rows| - 1], read)
      case Done(s) => ExecRow(p, rows[|rows| - 1], read, s)
      case other => other
  }

  // --- Composite keys ---

  /** The key texts of a row hold no NUL in the columns said to hold none. */
  predicate Clean(row: Row, columns: set<string>) {
    forall c :: c in columns && Has(row, c) ==> NulFree(row[c].text)
  }

  /** Of the different columns of a key chain at most one may hold a NUL. */
  predicate OneOpen(cols: seq<string>, columns: set<string>) {
    forall i, j :: 0 <= i < j < |cols| ==> cols[i] in columns || cols[j] in columns || cols[i] == cols[j]
  }

  predicate HasAll(row: Row, cols: seq<string>) {
    forall i :: 0 <= i < |cols| ==> Has(row, cols[i])
  }

  function Composite(row: Row, cols: seq<string>): string
    requires cols != [] && HasAll(row, cols)
  {
    var last := |cols| - 1;
    if last == 0 then row[cols[0]].text else Composite(row, cols[..last]) + NUL + row[cols[last]].text
  }

  function Nuls(s: string): nat {
    if s == [] then 0 else Nuls(s[..|s| - 1]) + if s[|s| - 1] == '\0' then 1 else 0
  }

  lemma {:induction false} NulsJoin(a: string, b: string)
    ensures Nuls(a + b) == Nuls(a) + Nuls(b)
  {
    if b == [] {
      assert a + b == a;
    } else {
      assert (a + b)[..|a + b| - 1] == a + b[..|b| - 1];
      NulsJoin(a, b[..|b| - 1]);
    }
  }

  lemma {:induction false} NulsNone(s: string)
    requires NulFree(s)
    ensures Nuls(s) == 0
  {
    if s != [] {
      NulsNone(s[..|s| - 1]);
    }
  }

  /** Two strings that hold as many NULs ahead of a NUL cannot end at different places. */
  lemma SplitByCount(a: string, x: string, b: string, y: string)
    requires Nuls(a) == Nuls(b) && a + NUL + x == b + NUL + y
    ensures a == b && x == y
  {
    NoLonger(a, x, b, y);
    NoLonger(b, y, a, x);
    var s := a + NUL + x;
    assert a == s[..|a|] && b == (b + NUL + y)[..|b|];
    assert x == s[|a| + 1..] && y == (b + NUL + y)[|b| + 1..];
  }

  lemma NulsMore(s: string, i: nat, j: nat)
    requires i < j <= |s| && s[i] == '\0'
    ensures Nuls(s[..i]) < Nuls(s[..j])
  {
    assert s[..j] == s[..i] + s[i..j] && s[i..j] == NUL + s[i + 1..j];
    NulsJoin(s[..i], s[i..j]);
    NulsJoin(NUL, s[i + 1..j]);
    assert NUL[..0] == [];
  }

  lemma NoLonger(a: string, x: string, b: string, y: string)
    requires Nuls(a) == Nuls(b) && a + NUL + x == b + NUL + y
    ensures |b| <= |a|
  {
    var s := a + NUL + x;
    assert a == s[..|a|] && b == (b + NUL + y)[..|b|];
    if |a| < |b| {
      NulsMore(s, |a|, |b|);
    }
  }

  /** A composite's NULs: those of its texts, and one between each and the next. */
  lemma CompositeNuls(row: Row, cols: seq<string>)
    requires cols != [] && HasAll(row, cols)
    ensures var last := |cols| - 1;
            Nuls(Composite(row, cols)) ==
            Nuls(row[cols[last]].text) + if last == 0 then 0 else Nuls(Composite(row, cols[..last])) + 1
  {
    var last := |cols| - 1;
    if last > 0 {
      NulsJoin(Composite(row, cols[..last]) + NUL, row[cols[last]].text);
      NulsJoin(Composite(row, cols[..last]), NUL);
      assert NUL[..0] == [];
    }
  }

  /** No text of one key path holds more NULs than the other's. */
  predicate NoMore(r: Row, row: Row, cols: seq<string>)
    requires HasAll(r, cols) && HasAll(row, cols)
  {
    forall i :: 0 <= i < |cols| ==> Nuls(r[cols[i]].text) <= Nuls(row[cols[i]].text)
  }

  lemma {:induction false} NulsOrder(r: Row, row: Row, cols: seq<string>, k: nat)
    requires k < |cols| && HasAll(r, cols) && HasAll(row, cols) && NoMore(r, row, cols)
    ensures Nuls(Composite(r, cols)) <= Nuls(Composite(row, cols))
    ensures Nuls(r[cols[k]].text) < Nuls(row[cols[k]].text) ==> Nuls(Composite(r, cols)) < Nuls(Composite(row, cols))
    decreases |cols|
  {
    var last := |cols| - 1;
    CompositeNuls(r, cols);
    CompositeNuls(row, cols);
    if last > 0 {
      NulsOrder(r, row, cols[..last], if k < last then k else 0);
    }
  }

  /** Where the texts hold as many NULs, a composite splits in one way. */
  lemma {:induction false} CompositeSplits(r: Row, row: Row, cols: seq<string>)
    requires cols != [] && HasAll(r, cols) && HasAll(row, cols) && NoMore(r, row, cols) && NoMore(row, r, cols)
    requires Composite(r, cols) == Composite(row, cols)
    ensures forall i :: 0 <= i < |cols| ==> r[cols[i]] == row[cols[i]]
    decreases |cols|
  {
    var last := |cols| - 1;
    if last > 0 {
      NulsOrder(r, row, cols[..last], 0);
      NulsOrder(row, r, cols[..last], 0);
      SplitByCount(Composite(r, cols[..last]), r[cols[last]].text, Composite(row, cols[..last]), row[cols[last]].text);
      CompositeSplits(r, row, cols[..last]);
      assert forall i :: 0 <= i < last ==> cols[..last][i] == cols[i];
    }
  }

  lemma {:induction false} CompositeSame(r: Row, row: Row, cols: seq<string>)
    requires cols != [] && HasAll(r, cols) && HasAll(row, cols)
    requires forall i :: 0 <= i < |cols| ==> r[cols[i]] == row[cols[i]]
    ensures Composite(r, cols) == Composite(row, cols)
    decreases |cols|
  {
    if |cols| > 1 {
      CompositeSame(r, row, cols[..|cols| - 1]);
    }
  }

  /** With one open column at most, the NULs of a chain's texts differ all one way. */
  lemma OneWay(r: Row, row: Row, cols: seq<string>, columns: set<string>, k: nat)
    requires k < |cols| && HasAll(r, cols) && HasAll(row, cols)
    requires Clean(r, columns) && Clean(row, columns) && OneOpen(cols, columns)
    requires Nuls(r[cols[k]].text) < Nuls(row[cols[k]].text)
    ensures NoMore(r, row, cols)
  {
    forall i | 0 <= i < |cols| ensures Nuls(r[cols[i]].text) <= Nuls(row[cols[i]].text) {
      if cols[i] in columns {
        NulsNone(r[cols[i]].text);
      } else if cols[k] in columns {
        NulsNone(row[cols[k]].text);
      } else {
        assert i < k || k < i || i == k;
      }
    }
  }

  /** Where at most one column of a chain may hold a NUL, equal composite keys come from equal key paths. */
  lemma CompositeInjective(r: Row, row: Row, cols: seq<string>, columns: set<string>)
    requires cols != [] && HasAll(r, cols) && HasAll(row, cols)
    requires Clean(r, columns) && Clean(row, columns) && OneOpen(cols, columns)
    ensures Composite(r, cols) == Composite(row, cols) <==> forall i :: 0 <= i < |cols| ==> r[cols[i]] == row[cols[i]]
  {
    hide Composite, Nuls, Clean, OneOpen;
    if forall i :: 0 <= i < |cols| ==> r[cols[i]] == row[cols[i]] {
      CompositeSame(r, row, cols);
    } else if Composite(r, cols) == Composite(row, cols) {
      if !NoMore(row, r, cols) {
        var k :| 0 <= k < |cols| && Nuls(r[cols[k]].text) < Nuls(row[cols[k]].text);
        OneWay(r, row, cols, columns, k);
        NulsOrder(r, row, cols, k);
      } else if !NoMore(r, row, cols) {
        var k :| 0 <= k < |cols| && Nuls(row[cols[k]].text) < Nuls(r[cols[k]].text);
        OneWay(row, r, cols, columns, k);
        NulsOrder(row, r, cols, k);
      } else {
        CompositeSplits(r, row, cols);
      }
    }
  }

  predicate SameComposite(r: Row, row: Row, cols: seq<string>, columns: set<string>)
    requires cols != []
  {
    && HasAll(r, cols) && HasAll(row, cols) && Clean(r, columns) && Clean(row, columns)
    && Composite(r, cols) == Composite(row, cols)
  }

  /** Rows that hold NULs only where they may have equal composites only on equal key paths. */
  ghost predicate Injective(cols: seq<string>, columns: set<string>)
    requires cols != []
  {
    forall r, row :: SameComposite(r, row, cols, columns) ==> forall i :: 0 <= i < |cols| ==> r[cols[i]] == row[cols[i]]
  }

  function Repeat(n: nat): string {
    seq(n, i => '\0')
  }

  /** A row whose texts are empty but for some NULs in one column. */
  function NulsAt(cols: seq<string>, column: string, n: nat): Row {
    map c | c in cols :: Value(if c == column then Repeat(n) else "")
  }

  /** How often a chain names a column. */
  function Occurs(cols: seq<string>, column: string): nat {
    if cols == [] then 0
    else Occurs(cols[..|cols| - 1], column) + if cols[|cols| - 1] == column then 1 else 0
  }

  lemma {:induction false} OccursSome(cols: seq<string>, column: string)
    requires column in cols
    ensures Occurs(cols, column) > 0
  {
    if cols[|cols| - 1] != column {
      OccursSome(cols[..|cols| - 1], column);
    }
  }

  lemma NulsAtText(all: seq<string>, column: string, n: nat, c: string)
    requires c in all
    ensures Has(NulsAt(all, column, n), c) && NulsAt(all, column, n)[c].text == if c == column then Repeat(n) else ""
  {
  }

  lemma Longer(n: nat, k: nat, m: nat)
    ensures Repeat(n) + NUL + Repeat(m) == Repeat(n + 1 + m)
    ensures m * (k + 1) == m * k + m
  {
  }

  lemma {:induction false} NulsAtComposite(cols: seq<string>, all: seq<string>, column: string, n: nat)
    requires cols != [] && cols <= all
    ensures HasAll(NulsAt(all, column, n), cols)
    ensures Composite(NulsAt(all, column, n), cols) == Repeat(|cols| - 1 + n * Occurs(cols, column))
    decreases |cols|
  {
    hide NulsAt, Has, Repeat;
    var last := |cols| - 1;
    forall i | 0 <= i < |cols| ensures Has(NulsAt(all, column, n), cols[i]) {
      assert cols[i] == all[i];
      NulsAtText(all, column, n, cols[i]);
    }
    assert cols[last] == all[last];
    NulsAtText(all, column, n, cols[last]);
    NoNuls();
    var before := n * Occurs(cols[..last], column);
    if last > 0 {
      NulsAtComposite(cols[..last], all, column, n);
      Longer(last - 1 + before, Occurs(cols[..last], column), n);
      Longer(last - 1 + before, 0, 0);
    } else {
      assert Occurs(cols[..last], column) == 0;
    }
  }

  lemma NoNuls()
    ensures Repeat(0) == ""
  {
  }

  /** Composite keys of a chain are injective exactly when at most one of its columns may hold a NUL. */
  lemma CompositeExactly(cols: seq<string>, columns: set<string>)
    requires cols != []
    ensures Injective(cols, columns) <==> OneOpen(cols, columns)
  {
    if OneOpen(cols, columns) {
      forall r, row | SameComposite(r, row, cols, columns)
        ensures forall i :: 0 <= i < |cols| ==> r[cols[i]] == row[cols[i]]
      {
        CompositeInjective(r, row, cols, columns);
      }
    } else {
      var i, j :| 0 <= i < j < |cols| && cols[i] !in columns && cols[j] !in columns && cols[i] != cols[j];
      TwoOpen(cols, columns, cols[i], cols[j]);
    }
  }

  lemma NulsAtClean(all: seq<string>, column: string, n: nat, columns: set<string>)
    requires column !in columns
    ensures Clean(NulsAt(all, column, n), columns)
  {
  }

  /** Two open columns that trade their NULs keep the composite. */
  lemma TwoOpen(cols: seq<string>, columns: set<string>, a: string, b: string)
    requires a in cols && b in cols && a != b && a !in columns && b !in columns
    ensures !Injective(cols, columns)
  {
    hide Clean, Composite, NulsAt, Occurs, Repeat, HasAll, Has;
    var p, q := Occurs(cols, a), Occurs(cols, b);
    OccursSome(cols, a);
    OccursSome(cols, b);
    var r, row := NulsAt(cols, a, q), NulsAt(cols, b, p);
    NulsAtComposite(cols, cols, a, q);
    NulsAtComposite(cols, cols, b, p);
    Swap(p, q);
    NulsAtClean(cols, a, q, columns);
    NulsAtClean(cols, b, p, columns);
    assert SameComposite(r, row, cols, columns);
    NulsAtDiffer(cols, a, q, b, p);
    var i :| 0 <= i < |cols| && cols[i] == a;
    assert r[cols[i]] != row[cols[i]];
  }

  lemma Swap(p: nat, q: nat)
    ensures p * q == q * p
  {
  }

  lemma NulsAtDiffer(all: seq<string>, a: string, q: nat, b: string, p: nat)
    requires a in all && a != b && q > 0
    ensures a in NulsAt(all, a, q) && a in NulsAt(all, b, p) && NulsAt(all, a, q)[a] != NulsAt(all, b, p)[a]
  {
    NulsAtText(all, a, q, a);
    NulsAtText(all, b, p, a);
    assert |Repeat(q)| == q;
  }

  /** A NUL inside a key text makes two key paths share a composite. */
  lemma CompositeCollides()
    ensures var r := map["p" := Value("a"), "c" := Value("b" + NUL + "c")];
            var row := map["p" := Value("a" + NUL + "b"), "c" := Value("c")];
            r["p"] != row["p"] && Composite(r, ["p", "c"]) == Composite(row, ["p", "c"])
  {
    assert ["p", "c"][..1] == ["p"];
  }

  // --- The rows of one element ---

  /** The rows with the key path of a row. */
  function Under(rows: seq<Row>, cols: seq<string>, row: Row): seq<Row>
    requires HasAll(row, cols)
  {
    if cols == [] then rows
    else
      var last := |cols| - 1;
      With(Under(rows, cols[..last], row), cols[last], row[cols[last]].text)
  }

  predicate Agrees(r: Row, row: Row, cols: seq<string>) {
    forall i :: 0 <= i < |cols| ==> Has(r, cols[i]) && Has(row, cols[i]) && r[cols[i]] == row[cols[i]]
  }

  lemma WithSnoc(rows: seq<Row>, r: Row, c: string, key: string)
    ensures With(rows + [r], c, key) ==
            if Has(r, c) && r[c].text == key then With(rows, c, key) + [r] else With(rows, c, key)
    ensures Keys(rows + [r], c) ==
            if Has(r, c) && r[c].text !in Keys(rows, c) then Keys(rows, c) + [r[c].text] else Keys(rows, c)
  {
    assert (rows + [r])[..|rows|] == rows;
  }

  lemma AgreesInit(r: Row, row: Row, cols: seq<string>)
    requires cols != [] && HasAll(row, cols)
    ensures var last := |cols| - 1;
            Agrees(r, row, cols) <==> Agrees(r, row, cols[..last]) && Has(r, cols[last]) && r[cols[last]] == row[cols[last]]
    ensures HasAll(row, cols[..|cols| - 1]) && Has(row, cols[|cols| - 1])
  {
    assert forall i :: 0 <= i < |cols| - 1 ==> cols[..|cols| - 1][i] == cols[i];
  }

  lemma UnderLast(rows: seq<Row>, cols: seq<string>, row: Row)
    requires HasAll(row, cols) && cols != []
    ensures var last := |cols| - 1;
            && HasAll(row, cols[..last]) && Has(row, cols[last])
            && Under(rows, cols, row) == With(Under(rows, cols[..last], row), cols[last], row[cols[last]].text)
  {
  }

  lemma NoColumns(rows: seq<Row>, r: Row, row: Row)
    ensures HasAll(row, []) && Agrees(r, row, []) && Under(rows, [], row) == rows
  {
  }

  lemma {:induction false} UnderSnoc(rows: seq<Row>, r: Row, cols: seq<string>, row: Row)
    requires HasAll(row, cols)
    ensures Under(rows + [r], cols, row) ==
            if Agrees(r, row, cols) then Under(rows, cols, row) + [r] else Under(rows, cols, row)
    decreases |cols|
  {
    hide Under, With, Keys, Agrees, HasAll;
    if cols == [] {
      NoColumns(rows, r, row);
      NoColumns(rows + [r], r, row);
    } else {
      var last := |cols| - 1;
      AgreesInit(r, row, cols);
      UnderLast(rows, cols, row);
      UnderLast(rows + [r], cols, row);
      UnderSnoc(rows, r, cols[..last], row);
      WithSnoc(Under(rows, cols[..last], row), r, cols[last], row[cols[last]].text);
    }
  }

  lemma {:induction false} UnderSame(rows: seq<Row>, r: Row, row: Row, cols: seq<string>)
    requires HasAll(row, cols) && HasAll(r, cols) && Agrees(r, row, cols)
    ensures Under(rows, cols, r) == Under(rows, cols, row)
    decreases |cols|
  {
    if cols != [] {
      UnderSame(rows, r, row, cols[..|cols| - 1]);
    }
  }

  // --- What an index map holds ---

  function IndexIn(keys: seq<string>, k: string): nat {
    if keys == [] then 0
    else if keys[|keys| - 1] == k then |keys| - 1
    else IndexIn(keys[..|keys| - 1], k)
  }

  /** The index map of a slice after some rows: each key path to its element's position. */
  function Expected(rows: seq<Row>, cols: seq<string>): map<string, nat>
    requires cols != []
  {
    if rows == [] then map[]
    else
      var before, row := Expected(rows[..|rows| - 1], cols), rows[|rows| - 1];
      if !HasAll(row, cols) || Composite(row, cols) in before then before
      else
        var last := |cols| - 1;
        before[Composite(row, cols) := |Keys(Under(rows[..|rows| - 1], cols[..last], row), cols[last])|]
  }

  lemma {:induction false} KeysAreOf(rows: seq<Row>, c: string)
    ensures forall k :: k in Keys(rows, c) <==> With(rows, c, k) != []
    ensures forall i, j :: 0 <= i < j < |Keys(rows, c)| ==> Keys(rows, c)[i] != Keys(rows, c)[j]
  {
    if rows != [] {
      KeysAreOf(rows[..|rows| - 1], c);
    }
  }

  /** Where a key first appears. */
  function FirstRow(rows: seq<Row>, c: string, k: string): nat {
    if rows == [] then 0
    else if Has(rows[0], c) && rows[0][c].text == k then 0
    else 1 + FirstRow(rows[1..], c, k)
  }

  lemma {:induction false} FirstRowSnoc(rows: seq<Row>, r: Row, c: string, k: string)
    ensures FirstRow(rows, c, k) <= |rows|
    ensures FirstRow(rows + [r], c, k) ==
            if FirstRow(rows, c, k) == |rows| && !(Has(r, c) && r[c].text == k) then |rows| + 1 else FirstRow(rows, c, k)
  {
    if rows != [] {
      assert (rows + [r])[1..] == rows[1..] + [r];
      FirstRowSnoc(rows[1..], r, c, k);
    }
  }

  /** Keys are listed by where they first appear. */
  lemma {:induction false} KeysInOrder(rows: seq<Row>, c: string)
    ensures var keys := Keys(rows, c);
            && (forall i, j :: 0 <= i < j < |keys| ==> FirstRow(rows, c, keys[i]) < FirstRow(rows, c, keys[j]))
            && (forall i :: 0 <= i < |keys| ==> FirstRow(rows, c, keys[i]) < |rows|)
            && (forall k: string :: k !in keys ==> FirstRow(rows, c, k) == |rows|)
  {
    if rows != [] {
      var n := |rows| - 1;
      KeysInOrder(rows[..n], c);
      assert rows == rows[..n] + [rows[n]];
      WithSnoc(rows[..n], rows[n], c, "");
      forall k: string
        ensures FirstRow(rows, c, k) ==
                if FirstRow(rows[..n], c, k) == n && !(Has(rows[n], c) && rows[n][c].text == k) then n + 1
                else FirstRow(rows[..n], c, k)
      {
        FirstRowSnoc(rows[..n], rows[n], c, k);
      }
      hide Keys, FirstRow;
    }
  }

  lemma IndexInSnoc(keys: seq<string>, k: string, other: string)
    ensures other != k ==> IndexIn(keys + [other], k) == IndexIn(keys, k)
    ensures IndexIn(keys + [k], k) == |keys|
  {
    assert (keys + [other])[..|keys|] == keys;
  }

  lemma ExpectedSnoc(rows: seq<Row>, r: Row, cols: seq<string>)
    requires cols != []
    ensures !HasAll(r, cols) ==> Expected(rows + [r], cols) == Expected(rows, cols)
    ensures HasAll(r, cols) ==> var before, c := Expected(rows, cols), Composite(r, cols);
              Expected(rows + [r], cols) ==
              if c in before then before
              else before[c := |Keys(Under(rows, cols[..|cols| - 1], r), cols[|cols| - 1])|]
  {
    assert (rows + [r])[..|rows|] == rows;
  }

  /** How one more row moves a key's place: not at all, unless it is the row that introduces the key. */
  lemma KeysAt(rows: seq<Row>, r: Row, above: seq<string>, column: string, row: Row)
    requires HasAll(row, above) && Has(row, column)
    ensures var k, before, after := row[column].text, Keys(Under(rows, above, row), column), Keys(Under(rows + [r], above, row), column);
            if Agrees(r, row, above) && Has(r, column) && r[column] == row[column] then
              k in after && IndexIn(after, k) == if k in before then IndexIn(before, k) else |before|
            else
              (k in after <==> k in before) && (k in before ==> IndexIn(after, k) == IndexIn(before, k))
  {
    UnderSnoc(rows, r, above, row);
    if Agrees(r, row, above) {
      WithSnoc(Under(rows, above, row), r, column, row[column].text);
      if Has(r, column) {
        IndexInSnoc(Keys(Under(rows, above, row), column), row[column].text, r[column].text);
      }
    }
  }

  /** An index map holds exactly the key paths seen, each at its key's place in first-appearance order. */
  lemma {:induction false} ExpectedIs(rows: seq<Row>, cols: seq<string>, row: Row, columns: set<string>)
    requires cols != [] && HasAll(row, cols)
    requires Clean(row, columns) && forall i :: 0 <= i < |rows| ==> Clean(rows[i], columns)
    requires OneOpen(cols, columns)
    ensures HasAll(row, cols[..|cols| - 1]) && Has(row, cols[|cols| - 1])
    ensures var last := |cols| - 1;
            var keys, k := Keys(Under(rows, cols[..last], row), cols[last]), row[cols[last]].text;
            && (Composite(row, cols) in Expected(rows, cols) <==> k in keys)
            && (k in keys ==> Expected(rows, cols)[Composite(row, cols)] == IndexIn(keys, k))
    decreases |rows|
  {
    var last := |cols| - 1;
    var above := cols[..last];
    AgreesInit(row, row, cols);
    if rows == [] {
      EmptyUnder(above, row);
    } else {
      var n := |rows| - 1;
      var rs, r := rows[..n], rows[n];
      assert rows == rs + [r];
      ExpectedIs(rs, cols, row, columns);
      KeysAt(rs, r, above, cols[last], row);
      AgreesInit(r, row, cols);
      ExpectedSnoc(rs, r, cols);
      if HasAll(r, cols) {
        CompositeInjective(r, row, cols, columns);
        if Agrees(r, row, cols) {
          UnderSame(rs, r, row, above);
        }
      }
      hide Keys, Under, Composite, Expected, IndexIn;
    }
  }

  lemma {:induction false} EmptyUnder(cols: seq<string>, row: Row)
    requires HasAll(row, cols)
    ensures Under([], cols, row) == []
  {
    if cols != [] {
      EmptyUnder(cols[..|cols| - 1], row);
    }
  }

  // --- The group-by, one more row at a time ---

  function Key(row: Row, c: string): string {
    if Has(row, c) then row[c].text else ""
  }

  lemma {:induction false} IndexInIs(keys: seq<string>, k: string)
    requires k in keys
    ensures IndexIn(keys, k) < |keys| && keys[IndexIn(keys, k)] == k
  {
    if keys[|keys| - 1] != k {
      IndexInIs(keys[..|keys| - 1], k);
    }
  }

  lemma {:induction false} NoRows(fields: seq<Field>, read: Reader)
    ensures GroupLists([], fields, read) == ZeroLists(fields)
  {
    if fields != [] {
      NoRows(fields[1..], read);
      assert fields[0].Slice? ==> Group([], fields[0].plan, read) == [];
    }
  }

  /** The elements a row finds when it arrives: those there, and a new empty one if its key is new. */
  function Arrived(rows: seq<Row>, row: Row, plan: Plan, read: Reader): seq<Node> {
    if Key(row, KeyColumn(plan)) in Keys(rows, KeyColumn(plan)) then Group(rows, plan, read)
    else Group(rows, plan, read) + [Node(Fill(plan.fields, row, read).GetOr([]), ZeroLists(plan.fields))]
  }

  lemma GroupSkips(rows: seq<Row>, row: Row, plan: Plan, read: Reader)
    requires !Has(row, KeyColumn(plan))
    ensures Group(rows + [row], plan, read) == Group(rows, plan, read)
  {
    var c := KeyColumn(plan);
    WithSnoc(rows, row, c, "");
    forall i | 0 <= i < |Keys(rows, c)|
      ensures With(rows + [row], c, Keys(rows, c)[i]) == With(rows, c, Keys(rows, c)[i])
    {
      WithSnoc(rows, row, c, Keys(rows, c)[i]);
    }
  }

  lemma KeysStep(rows: seq<Row>, row: Row, c: string)
    requires Has(row, c)
    ensures var k, before, after := Key(row, c), Keys(rows, c), Keys(rows + [row], c);
            && after == (if k in before then before else before + [k])
            && IndexIn(after, k) < |after| && after[IndexIn(after, k)] == k
            && (k !in before ==> IndexIn(after, k) == |before|)
            && (k in before <==> With(rows, c, k) != [])
            && With(rows + [row], c, k) == With(rows, c, k) + [row]
    ensures forall j :: 0 <= j < |Keys(rows + [row], c)| && j != IndexIn(Keys(rows + [row], c), Key(row, c)) ==>
              With(rows + [row], c, Keys(rows + [row], c)[j]) == With(rows, c, Keys(rows + [row], c)[j])
  {
    var k, before, after := Key(row, c), Keys(rows, c), Keys(rows + [row], c);
    WithSnoc(rows, row, c, k);
    KeysAreOf(rows, c);
    KeysAreOf(rows + [row], c);
    IndexInIs(after, k);
    if k !in before {
      IndexInSnoc(before, k, k);
    }
    forall j | 0 <= j < |after| && j != IndexIn(after, k)
      ensures With(rows + [row], c, after[j]) == With(rows, c, after[j])
    {
      WithSnoc(rows, row, c, after[j]);
    }
  }

  lemma GroupShape(rows: seq<Row>, plan: Plan, read: Reader)
    ensures |Group(rows, plan, read)| == |Keys(rows, KeyColumn(plan))|
    ensures forall j :: 0 <= j < |Group(rows, plan, read)| ==>
              Group(rows, plan, read)[j] == GroupOne(With(rows, KeyColumn(plan), Keys(rows, KeyColumn(plan))[j]), plan, read)
  {
  }

  lemma GroupOneSnoc(rows: seq<Row>, row: Row, plan: Plan, read: Reader)
    ensures var first := if rows == [] then row else rows[0];
            GroupOne(rows + [row], plan, read) ==
            Node(Fill(plan.fields, first, read).GetOr([]), GroupLists(rows + [row], plan.fields, read))
  {
    assert (rows + [row])[0] == if rows == [] then row else rows[0];
  }

  /** One row changes one element: its slices gain the row, its scalars and its neighbours do not change. */
  lemma GroupStep(rows: seq<Row>, row: Row, plan: Plan, read: Reader)
    requires Has(row, KeyColumn(plan))
    ensures var c, k := KeyColumn(plan), Key(row, KeyColumn(plan));
            var i, list := IndexIn(Keys(rows + [row], c), k), Arrived(rows, row, plan, read);
            && i < |list|
            && (k !in Keys(rows, c) ==> i == |Group(rows, plan, read)|)
            && list[i].lists == GroupLists(With(rows, c, k), plan.fields, read)
            && Group(rows + [row], plan, read) ==
               list[i := Node(list[i].cells, GroupLists(With(rows, c, k) + [row], plan.fields, read))]
  {
    var c, k := KeyColumn(plan), Key(row, KeyColumn(plan));
    hide Keys, With, Group, GroupLists, IndexIn, Fill, ZeroLists, KeyColumn, Key, Has;
    KeysStep(rows, row, c);
    NoRows(plan.fields, read);
    GroupShape(rows, plan, read);
    GroupShape(rows + [row], plan, read);
    GroupOneSnoc(With(rows, c, k), row, plan, read);
    var before, after := Keys(rows, c), Keys(rows + [row], c);
    var i, list, grown := IndexIn(after, k), Arrived(rows, row, plan, read), Group(rows + [row], plan, read);
    assert grown[i] == GroupOne(With(rows, c, k) + [row], plan, read);
    assert k in before ==> list[i] == GroupOne(With(rows, c, k), plan, read);
    forall j | 0 <= j < |after| && j != i ensures grown[j] == list[j] {
      assert With(rows + [row], c, after[j]) == With(rows, c, after[j]);
    }
  }

  // --- Where each element comes from ---

  /** A row is the first with its key path. */
  predicate Opens(rows: seq<Row>, cols: seq<string>, i: nat)
    requires i < |rows|
  {
    HasAll(rows[i], cols) && forall h :: 0 <= h < i ==> !Agrees(rows[h], rows[i], cols)
  }

  /** The rows that open a key path one level below a row's own. */
  function Openers(rows: seq<Row>, above: seq<string>, c: string, row: Row): seq<nat> {
    if rows == [] then []
    else
      var n: nat := |rows| - 1;
      Openers(rows[..n], above, c, row) + if Opens(rows, above + [c], n) && Agrees(rows[n], row, above) then [n] else []
  }

  /**
   * The elements below a row's key path are those the rows after it open, in their order; each holds
   * what the readers make of the row that opens it, and below it the same again.
   */
  ghost predicate ElementsRead(list: seq<Node>, plan: Plan, above: seq<string>, row: Row, rows: seq<Row>, read: Reader)
    decreases plan, 1
  {
    var c := KeyColumn(plan);
    var openers := Openers(rows, above, c, row);
    && |list| == |openers|
    && forall j :: 0 <= j < |list| ==>
         openers[j] < |rows| && ElementRead(list[j], plan, above + [c], rows[openers[j]], rows, read)
  }

  ghost predicate ElementRead(n: Node, plan: Plan, cols: seq<string>, row: Row, rows: seq<Row>, read: Reader)
    decreases plan, 0
  {
    CellsRead(n.cells, Leaves(plan.fields), row, read) && SlicesRead(n.lists, plan.fields, cols, row, rows, read)
  }

  ghost predicate SlicesRead(lists: seq<seq<Node>>, fields: seq<Field>, cols: seq<string>, row: Row, rows: seq<Row>, read: Reader)
    decreases fields
  {
    if fields == [] then lists == []
    else if !fields[0].Slice? then SlicesRead(lists, fields[1..], cols, row, rows, read)
    else
      && lists != [] && ElementsRead(lists[0], fields[0].plan, cols, row, rows, read)
      && SlicesRead(lists[1..], fields[1..], cols, row, rows, read)
  }

  lemma AgreesOn(r: Row, row: Row, above: seq<string>, c: string)
    requires HasAll(row, above) && Has(row, c)
    ensures HasAll(row, above + [c])
    ensures Agrees(r, row, above + [c]) <==> Agrees(r, row, above) && Has(r, c) && r[c] == row[c]
  {
    var cols := above + [c];
    assert cols[..|cols| - 1] == above;
    assert HasAll(row, cols);
    AgreesInit(r, row, cols);
  }

  /** A key path was seen exactly when its last key is among those below the path it extends. */
  lemma {:induction false} SeenBefore(rows: seq<Row>, r: Row, above: seq<string>, c: string)
    requires HasAll(r, above) && Has(r, c)
    ensures (exists h :: 0 <= h < |rows| && Agrees(rows[h], r, above + [c])) <==> r[c].text in Keys(Under(rows, above, r), c)
    decreases |rows|
  {
    if rows == [] {
      EmptyUnder(above, r);
    } else {
      var n := |rows| - 1;
      assert rows == rows[..n] + [rows[n]];
      SeenBefore(rows[..n], r, above, c);
      KeysAt(rows[..n], rows[n], above, c, r);
      AgreesOn(rows[n], r, above, c);
      hide Keys, Under, Agrees, HasAll, Has;
      assert forall h :: 0 <= h < n ==> rows[..n][h] == rows[h];
    }
  }

  lemma AgreesBack(r: Row, row: Row, cols: seq<string>)
    requires Agrees(r, row, cols)
    ensures HasAll(r, cols)
  {
  }

  lemma OpensPrefix(rows: seq<Row>, cols: seq<string>, n: nat, i: nat)
    requires i < n <= |rows|
    ensures Opens(rows[..n], cols, i) == Opens(rows, cols, i)
  {
    hide Agrees, HasAll;
    assert forall h :: 0 <= h <= i ==> rows[..n][h] == rows[h];
  }

  lemma OpenersMore(rs: seq<Row>, r: Row, above: seq<string>, c: string, row: Row)
    ensures Openers(rs + [r], above, c, row) ==
            Openers(rs, above, c, row) + if Opens(rs + [r], above + [c], |rs|) && Agrees(r, row, above) then [|rs|] else []
  {
    assert (rs + [r])[..|rs|] == rs;
    hide Opens, Agrees;
  }

  /** A row brings a key to a level: it has the level's key path above, and is the first with the key. */
  predicate Brings(rows: seq<Row>, above: seq<string>, c: string, row: Row, i: nat, k: string) {
    && i < |rows| && Agrees(rows[i], row, above)
    && Opens(rows, above + [c], i) && Has(rows[i], c) && rows[i][c].text == k
  }

  lemma BringsStill(rs: seq<Row>, r: Row, above: seq<string>, c: string, row: Row, i: nat, k: string)
    requires Brings(rs, above, c, row, i, k)
    ensures Brings(rs + [r], above, c, row, i, k)
  {
    assert (rs + [r])[..|rs|] == rs;
    OpensPrefix(rs + [r], above + [c], |rs|, i);
    hide Opens, Agrees, Has;
  }

  /** The keys of a level are those its openers bring. */
  lemma {:induction false} OpenersAre(rows: seq<Row>, above: seq<string>, c: string, row: Row)
    requires HasAll(row, above)
    ensures var openers, keys := Openers(rows, above, c, row), Keys(Under(rows, above, row), c);
            |openers| == |keys| && forall j :: 0 <= j < |keys| ==> Brings(rows, above, c, row, openers[j], keys[j])
    decreases |rows|
  {
    if rows == [] {
      EmptyUnder(above, row);
    } else {
      var n: nat := |rows| - 1;
      var rs, r := rows[..n], rows[n];
      assert rows == rs + [r];
      OpenersAre(rs, above, c, row);
      UnderSnoc(rs, r, above, row);
      WithSnoc(Under(rs, above, row), r, c, "");
      LastOpens(rs, r, above, c, row);
      OpenersMore(rs, r, above, c, row);
      var openers, keys := Openers(rs, above, c, row), Keys(Under(rs, above, row), c);
      forall j | 0 <= j < |keys| ensures Brings(rows, above, c, row, openers[j], keys[j]) {
        BringsStill(rs, r, above, c, row, openers[j], keys[j]);
      }
      LastBrings(rs, r, above, c, row);
      hide Keys, Under, With, Agrees, HasAll, Has, Opens, Openers, Brings;
    }
  }

  lemma LastBrings(rs: seq<Row>, r: Row, above: seq<string>, c: string, row: Row)
    ensures Agrees(r, row, above) && Opens(rs + [r], above + [c], |rs|) ==>
              Has(r, c) && Brings(rs + [r], above, c, row, |rs|, r[c].text)
  {
    if Opens(rs + [r], above + [c], |rs|) {
      assert (above + [c])[|above|] == c;
    }
  }

  lemma LastOpens(rs: seq<Row>, r: Row, above: seq<string>, c: string, row: Row)
    requires HasAll(row, above)
    ensures Agrees(r, row, above) ==>
              (Opens(rs + [r], above + [c], |rs|) <==> Has(r, c) && r[c].text !in Keys(Under(rs, above, row), c))
  {
    if Agrees(r, row, above) {
      AgreesBack(r, row, above);
      UnderSame(rs, r, row, above);
      if Has(r, c) {
        SeenBefore(rs, r, above, c);
        AgreesOn(r, r, above, c);
        hide Keys, Under, Agrees, HasAll, Has;
        assert forall h :: 0 <= h < |rs| ==> (rs + [r])[h] == rs[h];
      } else {
        assert (above + [c])[|above|] == c;
      }
    }
  }

  /** Every element can be filled from its first row. */
  ghost predicate FilledGroup(rows: seq<Row>, plan: Plan, read: Reader)
    decreases plan, 1
  {
    forall k :: k in Keys(rows, KeyColumn(plan)) ==> FilledOne(With(rows, KeyColumn(plan), k), plan, read)
  }

  ghost predicate FilledOne(rows: seq<Row>, plan: Plan, read: Reader)
    decreases plan, 0
  {
    rows != [] && Fill(plan.fields, rows[0], read).Some? && FilledFields(rows, plan.fields, read)
  }

  ghost predicate FilledFields(rows: seq<Row>, fields: seq<Field>, read: Reader)
    decreases fields
  {
    fields == [] ||
    ((fields[0].Slice? ==> FilledGroup(rows, fields[0].plan, read)) && FilledFields(rows, fields[1..], read))
  }

  lemma {:induction false} FilledNone(fields: seq<Field>, read: Reader)
    ensures FilledFields([], fields, read)
  {
    if fields != [] {
      FilledNone(fields[1..], read);
    }
  }

  lemma {:induction false} FilledFieldsStep(rows: seq<Row>, row: Row, fields: seq<Field>, read: Reader)
    requires FilledFields(rows, fields, read) && Reads(rows, row, fields, read)
    ensures FilledFields(rows + [row], fields, read)
    decreases fields
  {
    if fields != [] {
      hide FilledGroup, ReadsOne;
      if fields[0].Slice? {
        FilledStep(rows, row, fields[0].plan, read);
      }
      FilledFieldsStep(rows, row, fields[1..], read);
    }
  }

  lemma {:induction false} FilledStep(rows: seq<Row>, row: Row, plan: Plan, read: Reader)
    requires FilledGroup(rows, plan, read) && ReadsOne(rows, row, plan, read)
    ensures FilledGroup(rows + [row], plan, read)
    decreases plan
  {
    var c := KeyColumn(plan);
    forall k | k in Keys(rows + [row], c) ensures FilledOne(With(rows + [row], c, k), plan, read) {
      WithSnoc(rows, row, c, k);
      KeysAreOf(rows, c);
      if Has(row, c) && row[c].text == k {
        var mine := With(rows, c, k);
        if k !in Keys(rows, c) {
          assert mine == [];
          FilledNone(plan.fields, read);
        }
        hide Keys, With, Fill, FilledFields, Reads, KeyColumn;
        FilledFieldsStep(mine, row, plan.fields, read);
        assert (mine + [row])[0] == if mine == [] then row else mine[0];
      }
    }
  }

  lemma {:induction false} AllFilled(rows: seq<Row>, plan: Plan, read: Reader)
    requires AllRead(rows, plan, read)
    ensures FilledGroup(rows, plan, read)
    decreases |rows|
  {
    if rows != [] {
      var n := |rows| - 1;
      hide FilledGroup, ReadsOne, Has;
      AllFilled(rows[..n], plan, read);
      FilledStep(rows[..n], rows[n], plan, read);
      assert rows[..n] + [rows[n]] == rows;
    } else {
      assert Keys([], KeyColumn(plan)) == [];
    }
  }

  lemma {:induction false} FirstUnder(rows: seq<Row>, cols: seq<string>, i: nat)
    requires i < |rows| && Opens(rows, cols, i)
    ensures HasAll(rows[i], cols) && Under(rows, cols, rows[i]) != [] && Under(rows, cols, rows[i])[0] == rows[i]
    decreases |rows|
  {
    var n := |rows| - 1;
    var row := rows[i];
    assert rows == rows[..n] + [rows[n]];
    UnderSnoc(rows[..n], rows[n], cols, row);
    if i < n {
      OpensPrefix(rows, cols, n, i);
      FirstUnder(rows[..n], cols, i);
    } else {
      assert Agrees(row, row, cols);
      NoneUnder(rows[..n], cols, row);
    }
  }

  lemma {:induction false} NoneUnder(rows: seq<Row>, cols: seq<string>, row: Row)
    requires HasAll(row, cols) && forall h :: 0 <= h < |rows| ==> !Agrees(rows[h], row, cols)
    ensures Under(rows, cols, row) == []
    decreases |rows|
  {
    if rows == [] {
      EmptyUnder(cols, row);
    } else {
      var n := |rows| - 1;
      assert rows == rows[..n] + [rows[n]];
      UnderSnoc(rows[..n], rows[n], cols, row);
      NoneUnder(rows[..n], cols, row);
    }
  }

  /** Elements of a group-by hold what the readers make of the rows that open their key paths. */
  lemma {:induction false} GroupReads(rows: seq<Row>, plan: Plan, above: seq<string>, row: Row, read: Reader)
    requires HasAll(row, above) && FilledGroup(Under(rows, above, row), plan, read)
    ensures ElementsRead(Group(Under(rows, above, row), plan, read), plan, above, row, rows, read)
    decreases plan, 1
  {
    var c, mine := KeyColumn(plan), Under(rows, above, row);
    var list, openers, keys := Group(mine, plan, read), Openers(rows, above, c, row), Keys(mine, c);
    OpenersAre(rows, above, c, row);
    GroupShape(mine, plan, read);
    hide Group, Openers, Keys, KeyColumn, Under, With, Opens, Agrees, HasAll, Has, ElementRead, FilledOne;
    forall j | 0 <= j < |list| ensures openers[j] < |rows| && ElementRead(list[j], plan, above + [c], rows[openers[j]], rows, read) {
      assert Brings(rows, above, c, row, openers[j], keys[j]);
      var r := rows[openers[j]];
      OpenerRows(rows, above, c, row, openers[j]);
      assert keys[j] in keys;
      OneReads(rows, plan, above + [c], openers[j], read);
    }
  }

  lemma OpenerRows(rows: seq<Row>, above: seq<string>, c: string, row: Row, i: nat)
    requires HasAll(row, above) && i < |rows| && Opens(rows, above + [c], i) && Agrees(rows[i], row, above)
    requires Has(rows[i], c)
    ensures HasAll(rows[i], above + [c])
    ensures Under(rows, above + [c], rows[i]) == With(Under(rows, above, row), c, rows[i][c].text)
  {
    var cols := above + [c];
    assert cols[..|above|] == above;
    AgreesBack(rows[i], row, above);
    UnderSame(rows, rows[i], row, above);
  }

  lemma {:induction false} OneReads(rows: seq<Row>, plan: Plan, cols: seq<string>, i: nat, read: Reader)
    requires i < |rows| && Opens(rows, cols, i) && HasAll(rows[i], cols) && FilledOne(Under(rows, cols, rows[i]), plan, read)
    ensures ElementRead(GroupOne(Under(rows, cols, rows[i]), plan, read), plan, cols, rows[i], rows, read)
    decreases plan, 0
  {
    FirstUnder(rows, cols, i);
    FillReads(plan.fields, rows[i], read);
    hide Under, Opens, HasAll, Fill, GroupLists, Leaves, Takes;
    FieldsRead(rows, plan.fields, cols, rows[i], read);
  }

  lemma {:induction false} FieldsRead(rows: seq<Row>, fields: seq<Field>, cols: seq<string>, row: Row, read: Reader)
    requires HasAll(row, cols) && FilledFields(Under(rows, cols, row), fields, read)
    ensures SlicesRead(GroupLists(Under(rows, cols, row), fields, read), fields, cols, row, rows, read)
    decreases fields
  {
    if fields != [] {
      hide Under, HasAll, Group, ElementsRead, FilledGroup;
      FieldsRead(rows, fields[1..], cols, row, read);
      var rest := GroupLists(Under(rows, cols, row), fields[1..], read);
      if fields[0].Slice? {
        GroupReads(rows, fields[0].plan, cols, row, read);
        assert ([Group(Under(rows, cols, row), fields[0].plan, read)] + rest)[1..] == rest;
      } else {
        assert [] + rest == rest;
      }
    }
  }

  /** Of a readable result every element is one that a row opens, filled from that row. */
  lemma GroupOfRows(rows: seq<Row>, plan: Plan, read: Reader)
    requires AllRead(rows, plan, read)
    ensures ElementsRead(Group(rows, plan, read), plan, [], map[], rows, read)
  {
    AllFilled(rows, plan, read);
    GroupReads(rows, plan, [], map[], read);
  }

  // --- Identifiers and places ---

  /** No slice is reached only through a nested struct field. */
  predicate Direct(fields: seq<Field>) {
    fields == [] ||
    (&& (match fields[0]
         case Slice(_, plan) => Direct(plan.fields)
         case Struct(_, plan) => SliceFree(plan.fields)
         case _ => true)
     && Direct(fields[1..]))
  }

  predicate SliceFree(fields: seq<Field>) {
    fields == [] ||
    (&& (match fields[0]
         case Slice(_, _) => false
         case Struct(_, plan) => SliceFree(plan.fields)
         case _ => true)
     && SliceFree(fields[1..]))
  }

  function Ids(fields: seq<Field>, path: string): set<string> {
    if fields == [] then {}
    else
      (if fields[0].Slice? then
         {SqlIdent(path + fields[0].name)} + Ids(fields[0].plan.fields, path + fields[0].name)
       else {})
      + Ids(fields[1..], path)
  }

  /** The index maps have different names, so the emitted function compiles. */
  predicate Distinct(fields: seq<Field>, path: string) {
    fields == [] ||
    (&& (fields[0].Slice? ==>
           var id, below := SqlIdent(path + fields[0].name), Ids(fields[0].plan.fields, path + fields[0].name);
           && id !in below && ({id} + below) !! Ids(fields[1..], path)
           && Distinct(fields[0].plan.fields, path + fields[0].name))
     && Distinct(fields[1..], path))
  }

  lemma {:induction false} EmitsNothing(fields: seq<Field>, slot: nat, target: Place, parent: string, path: string)
    requires SliceFree(fields)
    ensures EmitFields(fields, slot, target, parent, path) == []
  {
    if fields != [] {
      if fields[0].Struct? {
        EmitsNothing(fields[0].plan.fields, 0, Sub(target, fields[0].name), parent, path + fields[0].name);
      }
      EmitsNothing(fields[1..], slot, target, parent, path);
    }
  }

  predicate Above(target: Place, ids: set<string>) {
    PlaceIds(target) !! ids
  }

  /** The key variables the slices of some fields declare in the block they stand in. */
  function KeyVars(fields: seq<Field>, path: string): set<string> {
    if fields == [] then {}
    else (if fields[0].Slice? then {KeyVar(SqlIdent(path + fields[0].name))} else {}) + KeyVars(fields[1..], path)
  }

  /** No slice declares its key under the name that holds its parent's in the same block. */
  predicate Clear(fields: seq<Field>, path: string, parent: string) {
    fields == [] ||
    (&& (match fields[0]
         case Slice(name, plan) =>
           KeyVar(SqlIdent(path + name)) != parent && Clear(plan.fields, path + name, CompositeVar(SqlIdent(path + name)))
         case Struct(name, plan) => Clear(plan.fields, path + name, parent)
         case _ => true)
     && Clear(fields[1..], path, parent))
  }

  function PlaceIds(p: Place): set<string> {
    match p
    case Root => {}
    case Sub(of, _) => PlaceIds(of)
    case Elem(of, _, id) => PlaceIds(of) + {id}
  }

  lemma {:induction false} ResolveKept(p: Place, a: map<string, nat>, b: map<string, nat>)
    requires forall id :: id in PlaceIds(p) ==> (id in a <==> id in b) && (id in a ==> a[id] == b[id])
    ensures Resolve(p, a) == Resolve(p, b)
  {
    if p.Elem? {
      ResolveKept(p.of, a, b);
    }
  }

  lemma SetFacts(n: Node, slot: nat, pos: nat, a: Node, b: Node)
    requires slot < |n.lists| && pos < |n.lists[slot]|
    ensures Set(n, slot, pos, a).lists[slot][pos] == a
    ensures Set(Set(n, slot, pos, a), slot, pos, b) == Set(n, slot, pos, b)
    ensures Set(n, slot, pos, n.lists[slot][pos]) == n
  {
    assert n.lists[slot][pos := a][pos := b] == n.lists[slot][pos := b];
    assert Set(Set(n, slot, pos, a), slot, pos, b).lists == Set(n, slot, pos, b).lists;
    assert n.lists[slot][pos := n.lists[slot][pos]] == n.lists[slot];
    assert Set(n, slot, pos, n.lists[slot][pos]).lists == n.lists;
  }

  lemma {:induction false} PutFacts(n: Node, steps: seq<Step>, a: Node, b: Node)
    requires Inside(n, steps)
    ensures Inside(Put(n, steps, a), steps) && Get(Put(n, steps, a), steps) == a
    ensures Put(Put(n, steps, a), steps, b) == Put(n, steps, b)
    ensures Put(n, steps, Get(n, steps)) == n
    decreases |steps|
  {
    if steps != [] {
      var slot, pos := steps[0].slot, steps[0].pos;
      PutFacts(n.lists[slot][pos], steps[1..], a, b);
      var x, y := Put(n.lists[slot][pos], steps[1..], a), Put(n.lists[slot][pos], steps[1..], b);
      SetFacts(n, slot, pos, x, y);
    }
  }

  /** An element of a slice in a place is a place one step deeper. */
  lemma {:induction false} PutDeeper(n: Node, steps: seq<Step>, step: Step, a: Node)
    requires Inside(n, steps)
    ensures var g := Get(n, steps);
            && Inside(n, steps + [step]) == (step.slot < |g.lists| && step.pos < |g.lists[step.slot]|)
            && (Inside(n, steps + [step]) ==>
                  && Get(n, steps + [step]) == g.lists[step.slot][step.pos]
                  && Put(n, steps + [step], a) == Put(n, steps, Set(g, step.slot, step.pos, a)))
    decreases |steps|
  {
    if steps == [] {
      assert ([] + [step])[1..] == [];
    } else {
      assert (steps + [step])[1..] == steps[1..] + [step];
      PutDeeper(n.lists[steps[0].slot][steps[0].pos], steps[1..], step, a);
    }
  }

  // --- When a key variable takes the name of a parent's ---

  lemma {:induction false} SqlIdentJoin(a: string, b: string)
    ensures SqlIdent(a + b) == SqlIdent(a) + SqlIdent(b)
  {
    if a == [] {
      assert a + b == b;
    } else {
      SqlIdentJoin(a[1..], b);
      SqlIdentOne(a, b);
      hide SqlIdent;
      assert a == [a[0]] + a[1..];
    }
  }

  lemma SqlIdentOne(a: string, b: string)
    requires a != []
    ensures var first := if IsIdentRune(a[0]) then [a[0]] else [];
            SqlIdent(a + b) == first + SqlIdent(a[1..] + b) && SqlIdent(a) == first + SqlIdent(a[1..])
  {
    assert (a + b)[1..] == a[1..] + b;
  }

  /** A slice's key has the name of its parent's composite exactly when the slice's own name is Composite. */
  lemma NamedComposite(path: string, name: string)
    ensures KeyVar(SqlIdent(path + name)) == CompositeVar(SqlIdent(path)) <==> SqlIdent(name) == "Composite"
  {
    SqlIdentJoin(path, name);
    var a, b := SqlIdent(path), SqlIdent(name);
    hide SqlIdent;
    assert KeyVar(a + b) == a + (b + "Key") && CompositeVar(a) == a + ("Composite" + "Key");
    if a + (b + "Key") == a + ("Composite" + "Key") {
      assert (a + (b + "Key"))[|a|..] == b + "Key" && (a + ("Composite" + "Key"))[|a|..] == "Composite" + "Key";
      assert (b + "Key")[..|b|] == b && ("Composite" + "Key")[..9] == "Composite";
    }
  }

  const ROOT_ID := "root"

  lemma NamedRoot(id: string)
    ensures KeyVar(id) == ROOT_KEY <==> id == ROOT_ID
  {
    assert ROOT_KEY == ROOT_ID + "Key";
    if KeyVar(id) == ROOT_KEY {
      assert id == KeyVar(id)[..|id|] && ROOT_ID == ROOT_KEY[..4];
    }
  }

  /** No slice is called Composite, to the letters and digits of its name, directly in a slice. */
  predicate Unclashing(fields: seq<Field>) {
    fields == [] ||
    (&& (fields[0].Slice? ==> SqlIdent(fields[0].name) != "Composite" && Unclashing(fields[0].plan.fields))
     && Unclashing(fields[1..]))
  }

  /** No slice of the root is called root with the root's name, nor any slice Composite directly in a slice. */
  predicate RootUnclashing(fields: seq<Field>, path: string) {
    fields == [] ||
    (&& (fields[0].Slice? ==> SqlIdent(path + fields[0].name) != ROOT_ID && Unclashing(fields[0].plan.fields))
     && RootUnclashing(fields[1..], path))
  }

  lemma {:induction false} ClearBelow(fields: seq<Field>, path: string)
    requires Direct(fields)
    ensures Clear(fields, path, CompositeVar(SqlIdent(path))) <==> Unclashing(fields)
  {
    if fields != [] {
      ClearBelow(fields[1..], path);
      match fields[0] {
        case Slice(name, plan) =>
          NamedComposite(path, name);
          ClearBelow(plan.fields, path + name);
        case Struct(name, plan) =>
          ClearNone(plan.fields, path + name, CompositeVar(SqlIdent(path)));
        case _ =>
      }
    }
  }

  lemma {:induction false} ClearNone(fields: seq<Field>, path: string, parent: string)
    requires SliceFree(fields)
    ensures Clear(fields, path, parent)
  {
    if fields != [] {
      if fields[0].Struct? {
        ClearNone(fields[0].plan.fields, path + fields[0].name, parent);
      }
      ClearNone(fields[1..], path, parent);
    }
  }

  lemma {:induction false} ClearAtRoot(fields: seq<Field>, path: string)
    requires Direct(fields)
    ensures Clear(fields, path, ROOT_KEY) <==> RootUnclashing(fields, path)
  {
    if fields != [] {
      ClearAtRoot(fields[1..], path);
      match fields[0] {
        case Slice(name, plan) =>
          NamedRoot(SqlIdent(path + name));
          ClearBelow(plan.fields, path + name);
        case Struct(name, plan) =>
          ClearNone(plan.fields, path + name, ROOT_KEY);
        case _ =>
      }
    }
  }

  /** Every run of a statement leaves its parent's key as it was. */
  ghost predicate KeepsParent(c: Stmt) {
    forall row, read, s :: ExecChild(c, row, read, s).Done? ==>
      ValueIn(ExecChild(c, row, read, s).state.scopes, c.parent) == ValueIn(s.scopes, c.parent)
  }

  /** The same of the statements at every depth. */
  ghost predicate KeepParents(stmts: seq<Stmt>) {
    stmts == [] || (KeepsParent(stmts[0]) && KeepParents(stmts[0].body) && KeepParents(stmts[1..]))
  }

  lemma LocateScopes(c: Stmt, composite: string, row: Row, read: Reader, s: State)
    requires c.id in s.indexes && Locate(c, composite, row, read, s).Done?
    ensures Locate(c, composite, row, read, s).state.scopes == s.scopes
  {
  }

  /** Statements change no block but the one they stand in. */
  lemma {:induction false} OuterKept(stmts: seq<Stmt>, row: Row, read: Reader, s: State)
    requires s.scopes != [] && Exec(stmts, row, read, s).Done?
    ensures var t := Exec(stmts, row, read, s).state;
            |t.scopes| == |s.scopes| && t.scopes[..|t.scopes| - 1] == s.scopes[..|s.scopes| - 1]
    decreases stmts
  {
    if stmts != [] {
      hide ExecChild, Declare;
      ChildScopes(stmts[0], row, read, s);
      Declared(s.scopes, KeyVar(stmts[0].id), KeyText(stmts[0], row));
      OuterKept(stmts[1..], row, read, ExecChild(stmts[0], row, read, s).state);
    }
  }

  function KeyText(c: Stmt, row: Row): string {
    Key(row, KeyColumn(c.plan))
  }

  lemma Declared(scopes: seq<Scope>, name: string, value: string)
    requires scopes != []
    ensures var after := Declare(scopes, name, value);
            && |after| == |scopes| && after[..|after| - 1] == scopes[..|scopes| - 1]
            && (forall v :: v != name ==> ValueIn(after, v) == ValueIn(scopes, v))
            && ValueIn(after, name) == Some(value)
  {
  }

  /** A statement leaves one variable more, or another value in one. */
  lemma {:induction false} ChildScopes(c: Stmt, row: Row, read: Reader, s: State)
    requires ExecChild(c, row, read, s).Done?
    ensures s.scopes != []
    ensures ExecChild(c, row, read, s).state.scopes == Declare(s.scopes, KeyVar(c.id), KeyText(c, row))
    decreases c
  {
    hide Exec, Locate, Declare, KeyColumn;
    var key := KeyText(c, row);
    if row[KeyColumn(c.plan)].Value? {
      var composite := ValueIn(Declare(s.scopes, KeyVar(c.id), key), c.parent).value + NUL + key;
      var u := s.(scopes := Opened(s.scopes, c.id, key, composite));
      LocateScopes(c, composite, row, read, u);
      OuterKept(c.body, row, read, Locate(c, composite, row, read, u).state);
    }
  }

  /** A statement keeps its parent's key exactly when its own key has another name. */
  lemma KeepsParentExactly(c: Stmt)
    ensures KeepsParent(c) <==> KeyVar(c.id) != c.parent
  {
    if KeyVar(c.id) != c.parent {
      forall row, read, s | ExecChild(c, row, read, s).Done?
        ensures ValueIn(ExecChild(c, row, read, s).state.scopes, c.parent) == ValueIn(s.scopes, c.parent)
      {
        hide ExecChild;
        ChildScopes(c, row, read, s);
        Declared(s.scopes, KeyVar(c.id), KeyText(c, row));
      }
    } else {
      var row: Row, read: Reader := map[KeyColumn(c.plan) := Null], (kind, cell) => None;
      var s := State([], map[], map[], 0, [map[c.parent := "1"]], map[]);
      Declared(s.scopes, c.parent, "");
      assert ExecChild(c, row, read, s) == Done(s.(scopes := Declare(s.scopes, c.parent, "")));
    }
  }

  /** A statement whose key takes its parent's name joins the key to itself. */
  lemma ClashJoins(c: Stmt, row: Row, read: Reader, s: State)
    requires KeyVar(c.id) == c.parent && Has(row, KeyColumn(c.plan)) && s.scopes != [] && c.id in s.indexes
    ensures var k := row[KeyColumn(c.plan)].text;
            var found := Locate(c, k + NUL + k, row, read, s.(scopes := Opened(s.scopes, c.id, k, k + NUL + k)));
            ExecChild(c, row, read, s) ==
            if found.Done? then Closed(Exec(c.body, row, read, found.state)) else found
  {
    Declared(s.scopes, c.parent, row[KeyColumn(c.plan)].text);
    hide Declare;
  }

  lemma {:induction false} KeepParentsJoin(a: seq<Stmt>, b: seq<Stmt>)
    ensures KeepParents(a + b) <==> KeepParents(a) && KeepParents(b)
    decreases a
  {
    hide KeepsParent;
    if a == [] {
      assert a + b == b;
    } else {
      assert (a + b)[1..] == a[1..] + b;
      KeepParentsJoin(a[1..], b);
    }
  }

  lemma {:induction false} KeepParentsClear(fields: seq<Field>, slot: nat, target: Place, parent: string, path: string)
    ensures KeepParents(EmitFields(fields, slot, target, parent, path)) <==> Clear(fields, path, parent)
    decreases fields
  {
    hide KeepsParent, SqlIdent, KeyVar, CompositeVar;
    if fields != [] {
      match fields[0] {
        case Struct(name, plan) =>
          KeepParentsClear(plan.fields, 0, Sub(target, name), parent, path + name);
          KeepParentsClear(fields[1..], slot, target, parent, path);
          KeepParentsJoin(EmitFields(plan.fields, 0, Sub(target, name), parent, path + name),
                          EmitFields(fields[1..], slot, target, parent, path));
        case Slice(name, plan) =>
          var c, id := EmitChild(fields[0], slot, target, parent, path), SqlIdent(path + name);
          KeepsParentExactly(c);
          KeepParentsClear(plan.fields, 0, Elem(target, slot, id), CompositeVar(id), path + name);
          KeepParentsClear(fields[1..], slot + 1, target, parent, path);
          assert [c][1..] == [];
          KeepParentsJoin([c], EmitFields(fields[1..], slot + 1, target, parent, path));
        case _ =>
          KeepParentsClear(fields[1..], slot, target, parent, path);
      }
    }
  }

  /** Every statement of a scanner keeps its parent's key exactly when no slice's name clashes with it. */
  lemma ParentsKept(plan: Plan, name: string)
    requires Direct(plan.fields)
    ensures KeepParents(Emitted(plan, name).body) <==> RootUnclashing(plan.fields, name)
  {
    hide *;
    EmittedBody(plan, name);
    KeepParentsClear(plan.fields, 0, Root, ROOT_KEY, name);
    ClearAtRoot(plan.fields, name);
  }

  lemma EmittedBody(plan: Plan, name: string)
    ensures Emitted(plan, name).body == EmitFields(plan.fields, 0, Root, ROOT_KEY, name)
  {
  }

  // --- The index maps of a subtree ---

  ghost predicate SitesHold(indexes: map<string, map<string, nat>>, fields: seq<Field>, path: string,
                            cols: seq<string>, rows: seq<Row>)
    decreases fields
  {
    fields == [] ||
    (&& (fields[0].Slice? ==> SiteHolds(indexes, fields[0].name, fields[0].plan, path, cols, rows))
     && SitesHold(indexes, fields[1..], path, cols, rows))
  }

  ghost predicate SiteHolds(indexes: map<string, map<string, nat>>, name: string, plan: Plan, path: string,
                            cols: seq<string>, rows: seq<Row>)
    decreases plan
  {
    var id, deeper := SqlIdent(path + name), cols + [KeyColumn(plan)];
    && id in indexes && indexes[id] == Expected(rows, deeper)
    && SitesHold(indexes, plan.fields, path + name, deeper, rows)
  }

  lemma {:induction false} SitesFrame(a: map<string, map<string, nat>>, b: map<string, map<string, nat>>,
                                      fields: seq<Field>, path: string, cols: seq<string>, rows: seq<Row>)
    requires forall id :: id in Ids(fields, path) && id in a ==> id in b && b[id] == a[id]
    requires SitesHold(a, fields, path, cols, rows)
    ensures SitesHold(b, fields, path, cols, rows)
    decreases fields
  {
    if fields != [] {
      if fields[0].Slice? {
        var plan := fields[0].plan;
        SitesFrame(a, b, plan.fields, path + fields[0].name, cols + [KeyColumn(plan)], rows);
      }
      SitesFrame(a, b, fields[1..], path, cols, rows);
    }
  }

  /** A row with no key on the way down adds nothing further down. */
  lemma {:induction false} SitesSkip(indexes: map<string, map<string, nat>>, fields: seq<Field>, path: string,
                                     cols: seq<string>, rows: seq<Row>, row: Row)
    requires !HasAll(row, cols) && SitesHold(indexes, fields, path, cols, rows)
    ensures SitesHold(indexes, fields, path, cols, rows + [row])
    decreases fields
  {
    if fields != [] {
      if fields[0].Slice? {
        var plan := fields[0].plan;
        var deeper := cols + [KeyColumn(plan)];
        assert forall i :: 0 <= i < |cols| ==> deeper[i] == cols[i];
        ExpectedSnoc(rows, row, deeper);
        SitesSkip(indexes, plan.fields, path + fields[0].name, deeper, rows, row);
      }
      SitesSkip(indexes, fields[1..], path, cols, rows, row);
    }
  }

  // --- One row through the emitted statements ---

  /** An element's key columns, the rows so far, the row at hand, and the columns that hold no NUL. */
  datatype Spot = Spot(cols: seq<string>, rows: seq<Row>, row: Row, columns: set<string>, read: Reader) {
    predicate Ok() {
      && cols != [] && HasAll(row, cols) && Clean(row, columns)
      && (forall i :: 0 <= i < |rows| ==> Clean(rows[i], columns))
      && OneOpen(cols, columns)
    }

    function Mine(): seq<Row>
      requires Ok()
    {
      Under(rows, cols, row)
    }
  }

  /** Each key chain from the root down to a slice below some fields may hold a NUL at one level at most. */
  predicate ChainsOpen(fields: seq<Field>, cols: seq<string>, columns: set<string>) {
    fields == [] ||
    (&& (fields[0].Slice? ==>
           var deeper := cols + [KeyColumn(fields[0].plan)];
           OneOpen(deeper, columns) && ChainsOpen(fields[0].plan.fields, deeper, columns))
     && ChainsOpen(fields[1..], cols, columns))
  }

  /** The element a place names. */
  predicate Stands(s: State, target: Place, steps: seq<Step>, n: Node) {
    && Resolve(target, s.positions) == Some(steps)
    && s.rootPos < |s.out| && Inside(s.out[s.rootPos], steps) && Get(s.out[s.rootPos], steps) == n
  }

  function Replaced(s: State, steps: seq<Step>, n: Node): seq<Node>
    requires s.rootPos < |s.out| && Inside(s.out[s.rootPos], steps)
  {
    s.out[s.rootPos := Put(s.out[s.rootPos], steps, n)]
  }

  /** The blocks around are as they were, and the innermost one but for some variables. */
  ghost predicate KeptKeys(a: seq<Scope>, b: seq<Scope>, names: set<string>) {
    && |a| == |b| > 0 && b[..|b| - 1] == a[..|a| - 1]
    && forall v :: v !in names && v in a[|a| - 1] ==> v in b[|b| - 1] && b[|b| - 1][v] == a[|a| - 1][v]
  }

  /** Nothing but the result and the positions and index maps of some identifiers changed. */
  ghost predicate Kept(s: State, t: State, ids: set<string>) {
    && t.rootPos == s.rootPos && t.rootIndexes == s.rootIndexes
    && (forall id :: id !in ids ==> (id in s.positions <==> id in t.positions))
    && (forall id :: id !in ids && id in s.positions ==> t.positions[id] == s.positions[id])
    && (forall id :: id !in ids && id in s.indexes ==> id in t.indexes && t.indexes[id] == s.indexes[id])
  }

  predicate KeyIs(s: State, parent: string, at: Spot)
    requires at.Ok()
  {
    s.scopes != [] && parent in s.scopes[|s.scopes| - 1] && s.scopes[|s.scopes| - 1][parent] == Composite(at.row, at.cols)
  }

  /** The parent's key is still found where the child's block begins, unless the child's key took its name. */
  lemma ParentFound(s: State, parent: string, id: string, key: string, at: Spot)
    requires at.Ok() && KeyIs(s, parent, at) && KeyVar(id) != parent
    ensures ValueIn(Declare(s.scopes, KeyVar(id), key), parent) == Some(Composite(at.row, at.cols))
    ensures KeptKeys(s.scopes, Declare(s.scopes, KeyVar(id), key), {KeyVar(id)})
  {
    hide Composite;
  }

  lemma KeyStays(s: State, u: State, parent: string, at: Spot, names: set<string>)
    requires at.Ok() && KeyIs(s, parent, at) && KeptKeys(s.scopes, u.scopes, names) && parent !in names
    ensures KeyIs(u, parent, at)
  {
    hide Composite;
  }

  /** Where a slice's block ends, the block it stands in has its key and is otherwise as it was. */
  lemma BlockEnds(a: seq<Scope>, b: seq<Scope>, id: string, key: string, composite: string, names: set<string>)
    requires a != [] && KeptKeys(Opened(a, id, key, composite), b, names)
    ensures b != [] && KeptKeys(a, b[..|b| - 1], {KeyVar(id)})
  {
    assert b[..|b| - 1] == Declare(a, KeyVar(id), key);
  }

  function Deeper(at: Spot, plan: Plan): Spot {
    at.(cols := at.cols + [KeyColumn(plan)])
  }

  lemma DeeperFacts(at: Spot, plan: Plan)
    requires at.Ok() && Has(at.row, KeyColumn(plan)) && OneOpen(Deeper(at, plan).cols, at.columns)
    ensures var deeper, c := Deeper(at, plan), KeyColumn(plan);
            && deeper.Ok()
            && deeper.Mine() == With(at.Mine(), c, at.row[c].text)
            && Composite(at.row, deeper.cols) == Composite(at.row, at.cols) + NUL + at.row[c].text
  {
    assert Deeper(at, plan).cols[..|at.cols|] == at.cols;
  }

  /** Where a row lands: its element found or appended, its position and composite key at hand. */
  function Located(f: Field, slot: nat, path: string, at: Spot, s: State, steps: seq<Step>, n: Node): State
    requires f.Slice? && at.Ok() && Has(at.row, KeyColumn(f.plan)) && OneOpen(Deeper(at, f.plan).cols, at.columns)
    requires s.rootPos < |s.out| && Inside(s.out[s.rootPos], steps) && slot < |n.lists| && s.scopes != []
  {
    var id, c := SqlIdent(path + f.name), KeyColumn(f.plan);
    DeeperFacts(at, f.plan);
    s.(out := Replaced(s, steps, n.(lists := n.lists[slot := Arrived(at.Mine(), at.row, f.plan, at.read)])),
       positions := s.positions[id := IndexIn(Keys(at.Mine() + [at.row], c), at.row[c].text)],
       scopes := Opened(s.scopes, id, at.row[c].text, Composite(at.row, Deeper(at, f.plan).cols)),
       indexes := s.indexes[id := Expected(at.rows + [at.row], Deeper(at, f.plan).cols)])
  }

  /** What the index map of a slice answers a row, and what it holds once the row is in. */
  lemma Lookup(at: Spot, plan: Plan)
    requires at.Ok() && Has(at.row, KeyColumn(plan)) && OneOpen(Deeper(at, plan).cols, at.columns)
    ensures var c, deeper := KeyColumn(plan), Deeper(at, plan);
            var k, keys, after := at.row[c].text, Keys(at.Mine(), c), Keys(at.Mine() + [at.row], c);
            && deeper.Ok()
            && var composite, held := Composite(at.row, at.cols) + NUL + k, Expected(at.rows, deeper.cols);
            && composite == Composite(at.row, deeper.cols)
            && (composite in held <==> k in keys)
            && (k in keys ==> held[composite] == IndexIn(after, k))
            && (k !in keys ==> IndexIn(after, k) == |Group(at.Mine(), plan, at.read)|)
            && Expected(at.rows + [at.row], deeper.cols) ==
               if k in keys then held else held[composite := |Group(at.Mine(), plan, at.read)|]
  {
    var deeper := Deeper(at, plan);
    DeeperFacts(at, plan);
    ExpectedIs(at.rows, deeper.cols, at.row, at.columns);
    assert deeper.cols[..|at.cols|] == at.cols;
    ExpectedSnoc(at.rows, at.row, deeper.cols);
    KeysStep(at.Mine(), at.row, KeyColumn(plan));
    GroupShape(at.Mine(), plan, at.read);
    hide Expected, Keys, Group, Under, With, Composite, IndexIn, KeyColumn;
  }

  lemma Unchanged(s: State, id: string, steps: seq<Step>, n: Node, slot: nat)
    requires id in s.indexes && s.rootPos < |s.out| && Inside(s.out[s.rootPos], steps)
    requires Get(s.out[s.rootPos], steps) == n && slot < |n.lists|
    ensures s.indexes[id := s.indexes[id]] == s.indexes
    ensures Replaced(s, steps, n.(lists := n.lists[slot := n.lists[slot]])) == s.out
  {
    PutFacts(s.out[s.rootPos], steps, n, n);
    assert n.lists[slot := n.lists[slot]] == n.lists;
  }

  lemma LocateStep(f: Field, slot: nat, target: Place, parent: string, path: string, at: Spot, s: State,
                   steps: seq<Step>, n: Node)
    requires f.Slice? && at.Ok() && Has(at.row, KeyColumn(f.plan)) && OneOpen(Deeper(at, f.plan).cols, at.columns)
    requires KeyIs(s, parent, at) && Stands(s, target, steps, n)
    requires slot < |n.lists| && n.lists[slot] == Group(at.Mine(), f.plan, at.read)
    requires var id := SqlIdent(path + f.name);
             id in s.indexes && s.indexes[id] == Expected(at.rows, Deeper(at, f.plan).cols)
    ensures var id, c := SqlIdent(path + f.name), KeyColumn(f.plan);
            var composite := Composite(at.row, at.cols) + NUL + at.row[c].text;
            Locate(EmitChild(f, slot, target, parent, path), composite, at.row, at.read,
                   s.(scopes := Opened(s.scopes, id, at.row[c].text, composite))) ==
            if at.row[c].text in Keys(at.Mine(), c) || Fill(f.plan.fields, at.row, at.read).Some?
            then Done(Located(f, slot, path, at, s, steps, n)) else Failed
  {
    Lookup(at, f.plan);
    Unchanged(s, SqlIdent(path + f.name), steps, n, slot);
    hide Expected, Keys, Group, Under, With, Composite, IndexIn, Fill, EmitFields, Inside, Get, Put, Resolve, SqlIdent,
      KeyColumn, Has, Clean, HasAll, Spot.Ok, Spot.Mine, Deeper, Opened;
  }

  /** The fields' slices have taken the row, and nothing else has changed. */
  ghost predicate Taken(s: State, t: State, fields: seq<Field>, slot: nat, path: string, at: Spot,
                        steps: seq<Step>, n: Node)
    requires at.Ok() && s.rootPos < |s.out| && Inside(s.out[s.rootPos], steps) && slot <= |n.lists|
  {
    && Kept(s, t, Ids(fields, path)) && KeptKeys(s.scopes, t.scopes, KeyVars(fields, path))
    && t.out == Replaced(s, steps, n.(lists := n.lists[..slot] + GroupLists(at.Mine() + [at.row], fields, at.read)))
    && SitesHold(t.indexes, fields, path, at.cols, at.rows + [at.row])
  }

  ghost predicate TakenOne(s: State, t: State, f: Field, slot: nat, path: string, at: Spot,
                           steps: seq<Step>, n: Node)
    requires f.Slice? && at.Ok() && s.rootPos < |s.out| && Inside(s.out[s.rootPos], steps) && slot < |n.lists|
  {
    && Kept(s, t, {SqlIdent(path + f.name)} + Ids(f.plan.fields, path + f.name))
    && KeptKeys(s.scopes, t.scopes, {KeyVar(SqlIdent(path + f.name))})
    && t.out == Replaced(s, steps, n.(lists := n.lists[slot := Group(at.Mine() + [at.row], f.plan, at.read)]))
    && SiteHolds(t.indexes, f.name, f.plan, path, at.cols, at.rows + [at.row])
  }

  /** What the emitted statements of some fields start from. */
  ghost predicate Ready(s: State, fields: seq<Field>, slot: nat, target: Place, parent: string, path: string,
                        at: Spot, steps: seq<Step>, n: Node)
  {
    && Direct(fields) && Distinct(fields, path) && Above(target, Ids(fields, path)) && Clear(fields, path, parent)
    && at.Ok() && ChainsOpen(fields, at.cols, at.columns)
    && KeyIs(s, parent, at) && Stands(s, target, steps, n)
    && slot <= |n.lists| && n.lists[slot..] == GroupLists(at.Mine(), fields, at.read)
    && SitesHold(s.indexes, fields, path, at.cols, at.rows)
  }

  ghost predicate ReadyOne(s: State, f: Field, slot: nat, target: Place, parent: string, path: string,
                           at: Spot, steps: seq<Step>, n: Node)
  {
    && f.Slice? && Direct(f.plan.fields) && Distinct(f.plan.fields, path + f.name)
    && SqlIdent(path + f.name) !in Ids(f.plan.fields, path + f.name)
    && Above(target, {SqlIdent(path + f.name)} + Ids(f.plan.fields, path + f.name))
    && KeyVar(SqlIdent(path + f.name)) != parent && Clear(f.plan.fields, path + f.name, CompositeVar(SqlIdent(path + f.name)))
    && at.Ok() && OneOpen(Deeper(at, f.plan).cols, at.columns) && ChainsOpen(f.plan.fields, Deeper(at, f.plan).cols, at.columns)
    && KeyIs(s, parent, at) && Stands(s, target, steps, n)
    && slot < |n.lists| && n.lists[slot] == Group(at.Mine(), f.plan, at.read)
    && SiteHolds(s.indexes, f.name, f.plan, path, at.cols, at.rows)
  }

  /** A NULL child key adds nothing, here or below. */
  lemma NullStep(f: Field, slot: nat, target: Place, parent: string, path: string, at: Spot, s: State,
                 steps: seq<Step>, n: Node)
    requires ReadyOne(s, f, slot, target, parent, path, at, steps, n)
    requires !Has(at.row, KeyColumn(f.plan))
    ensures TakenOne(s, s.(scopes := Declare(s.scopes, KeyVar(SqlIdent(path + f.name)), "")), f, slot, path, at, steps, n)
  {
    var deeper := at.cols + [KeyColumn(f.plan)];
    assert deeper[|at.cols|] == KeyColumn(f.plan);
    GroupSkips(at.Mine(), at.row, f.plan, at.read);
    ExpectedSnoc(at.rows, at.row, deeper);
    SitesSkip(s.indexes, f.plan.fields, path + f.name, deeper, at.rows, at.row);
    PutFacts(s.out[s.rootPos], steps, n, n);
    assert n.lists[slot := n.lists[slot]] == n.lists;
  }

  /** The element a row lands in. */
  function Landing(f: Field, at: Spot): (Step, Node)
    requires f.Slice? && at.Ok() && Has(at.row, KeyColumn(f.plan))
  {
    var c, list := KeyColumn(f.plan), Arrived(at.Mine(), at.row, f.plan, at.read);
    var i := IndexIn(Keys(at.Mine() + [at.row], c), at.row[c].text);
    GroupStep(at.Mine(), at.row, f.plan, at.read);
    (Step(0, i), list[i])
  }

  lemma LandingStands(f: Field, slot: nat, target: Place, parent: string, path: string, at: Spot, s: State,
                      steps: seq<Step>, n: Node)
    requires ReadyOne(s, f, slot, target, parent, path, at, steps, n) && Has(at.row, KeyColumn(f.plan))
    ensures var u, land := Located(f, slot, path, at, s, steps, n), Landing(f, at);
            Stands(u, Elem(target, slot, SqlIdent(path + f.name)), steps + [Step(slot, land.0.pos)], land.1)
  {
    var u, land := Located(f, slot, path, at, s, steps, n), Landing(f, at);
    var m := n.(lists := n.lists[slot := Arrived(at.Mine(), at.row, f.plan, at.read)]);
    ResolveKept(target, s.positions, u.positions);
    PutFacts(s.out[s.rootPos], steps, m, m);
    PutDeeper(u.out[s.rootPos], steps, Step(slot, land.0.pos), m);
    GroupStep(at.Mine(), at.row, f.plan, at.read);
  }

  lemma ReadyBelow(f: Field, slot: nat, target: Place, parent: string, path: string, at: Spot, s: State,
                   steps: seq<Step>, n: Node)
    requires ReadyOne(s, f, slot, target, parent, path, at, steps, n) && Has(at.row, KeyColumn(f.plan))
    ensures var u, land, id := Located(f, slot, path, at, s, steps, n), Landing(f, at), SqlIdent(path + f.name);
            Ready(u, f.plan.fields, 0, Elem(target, slot, id), CompositeVar(id), path + f.name, Deeper(at, f.plan),
                  steps + [Step(slot, land.0.pos)], land.1)
  {
    hide Expected, Keys, Group, GroupLists, Under, With, Composite, IndexIn, Fill, EmitFields, Inside, Get, Put, Resolve,
      SqlIdent, KeyColumn, Clean, SitesHold, Ids, Distinct, Direct, Arrived;
    var u, id := Located(f, slot, path, at, s, steps, n), SqlIdent(path + f.name);
    LandingStands(f, slot, target, parent, path, at, s, steps, n);
    DeeperFacts(at, f.plan);
    GroupStep(at.Mine(), at.row, f.plan, at.read);
    SitesFrame(s.indexes, u.indexes, f.plan.fields, path + f.name, Deeper(at, f.plan).cols, at.rows);
  }

  lemma ResurfaceOut(n: Node, slot: nat, list: seq<Node>, i: nat, after: seq<seq<Node>>, root: Node, steps: seq<Step>)
    requires Inside(root, steps) && slot < |n.lists| && i < |list|
    ensures var m := n.(lists := n.lists[slot := list]);
            var grown := list[i].(lists := list[i].lists[..0] + after);
            && Inside(Put(root, steps, m), steps + [Step(slot, i)])
            && Put(Put(root, steps, m), steps + [Step(slot, i)], grown) ==
               Put(root, steps, n.(lists := n.lists[slot := list[i := Node(list[i].cells, after)]]))
  {
    var m := n.(lists := n.lists[slot := list]);
    var grown := list[i].(lists := list[i].lists[..0] + after);
    assert list[i].lists[..0] + after == after;
    assert Set(m, slot, i, grown).lists == n.lists[slot := list[i := grown]];
    PutFacts(root, steps, m, Set(m, slot, i, grown));
    PutDeeper(Put(root, steps, m), steps, Step(slot, i), grown);
  }

  lemma ReplacedTwice(s: State, u: State, steps: seq<Step>, m: Node, x: Node)
    requires s.rootPos < |s.out| && Inside(s.out[s.rootPos], steps)
    requires u.rootPos == s.rootPos && u.out == Replaced(s, steps, m)
    ensures Inside(u.out[u.rootPos], steps) && Replaced(u, steps, x) == Replaced(s, steps, x)
  {
    PutFacts(s.out[s.rootPos], steps, m, x);
  }

  lemma KeptJoin(s: State, u: State, t: State, a: set<string>, b: set<string>)
    requires Kept(s, u, a) && Kept(u, t, b)
    ensures Kept(s, t, a + b)
  {
  }

  lemma KeptKeysJoin(a: seq<Scope>, b: seq<Scope>, c: seq<Scope>, x: set<string>, y: set<string>)
    requires KeptKeys(a, b, x) && KeptKeys(b, c, y)
    ensures KeptKeys(a, c, x + y)
  {
  }

  lemma LocatedKept(f: Field, slot: nat, path: string, at: Spot, s: State, steps: seq<Step>, n: Node)
    requires f.Slice? && at.Ok() && Has(at.row, KeyColumn(f.plan)) && OneOpen(Deeper(at, f.plan).cols, at.columns)
    requires s.rootPos < |s.out| && Inside(s.out[s.rootPos], steps) && slot < |n.lists| && s.scopes != []
    ensures Deeper(at, f.plan).Ok()
    ensures var u, id := Located(f, slot, path, at, s, steps, n), SqlIdent(path + f.name);
            && Kept(s, u, {id})
            && id in u.indexes && u.indexes[id] == Expected(at.rows + [at.row], Deeper(at, f.plan).cols)
            && |u.out| == |s.out|
            && u.out == Replaced(s, steps, n.(lists := n.lists[slot := Arrived(at.Mine(), at.row, f.plan, at.read)]))
  {
    hide Expected, Keys, Group, Under, With, Composite, IndexIn, Fill, Inside, Put, SqlIdent, KeyColumn, Clean, Has, HasAll, Arrived;
    DeeperFacts(at, f.plan);
  }

  lemma LocatedScopes(f: Field, slot: nat, path: string, at: Spot, s: State, steps: seq<Step>, n: Node)
    requires f.Slice? && at.Ok() && Has(at.row, KeyColumn(f.plan)) && OneOpen(Deeper(at, f.plan).cols, at.columns)
    requires s.rootPos < |s.out| && Inside(s.out[s.rootPos], steps) && slot < |n.lists| && s.scopes != []
    ensures HasAll(at.row, Deeper(at, f.plan).cols) && Deeper(at, f.plan).cols != []
    ensures Located(f, slot, path, at, s, steps, n).scopes ==
            Opened(s.scopes, SqlIdent(path + f.name), at.row[KeyColumn(f.plan)].text, Composite(at.row, Deeper(at, f.plan).cols))
  {
    DeeperFacts(at, f.plan);
    hide Expected, Keys, Under, Composite, IndexIn, Put, SqlIdent, Opened, Arrived;
  }

  lemma ResurfaceScopes(f: Field, slot: nat, path: string, at: Spot, s: State, steps: seq<Step>, n: Node, t: State)
    requires f.Slice? && at.Ok() && Has(at.row, KeyColumn(f.plan)) && OneOpen(Deeper(at, f.plan).cols, at.columns)
    requires s.rootPos < |s.out| && Inside(s.out[s.rootPos], steps) && slot < |n.lists| && s.scopes != []
    requires KeptKeys(Located(f, slot, path, at, s, steps, n).scopes, t.scopes, KeyVars(f.plan.fields, path + f.name))
    ensures t.scopes != [] && KeptKeys(s.scopes, t.scopes[..|t.scopes| - 1], {KeyVar(SqlIdent(path + f.name))})
  {
    LocatedScopes(f, slot, path, at, s, steps, n);
    hide Located, Opened, KeptKeys, KeyVars, Composite, SqlIdent, KeyColumn, OneOpen, HasAll, Inside, Clean;
    BlockEnds(s.scopes, t.scopes, SqlIdent(path + f.name), at.row[KeyColumn(f.plan)].text,
              Composite(at.row, Deeper(at, f.plan).cols), KeyVars(f.plan.fields, path + f.name));
  }

  /** What the slices of the element did is what the slice that holds it did. */
  lemma Resurface(f: Field, slot: nat, target: Place, parent: string, path: string, at: Spot, s: State,
                  steps: seq<Step>, n: Node, t: State)
    requires ReadyOne(s, f, slot, target, parent, path, at, steps, n) && Has(at.row, KeyColumn(f.plan))
    requires var u, land, id := Located(f, slot, path, at, s, steps, n), Landing(f, at), SqlIdent(path + f.name);
             && Ready(u, f.plan.fields, 0, Elem(target, slot, id), CompositeVar(id), path + f.name, Deeper(at, f.plan),
                      steps + [Step(slot, land.0.pos)], land.1)
             && Taken(u, t, f.plan.fields, 0, path + f.name, Deeper(at, f.plan), steps + [Step(slot, land.0.pos)], land.1)
    ensures t.scopes != [] && TakenOne(s, t.(scopes := t.scopes[..|t.scopes| - 1]), f, slot, path, at, steps, n)
  {
    hide Expected, Keys, Group, GroupLists, Under, With, Composite, IndexIn, Fill, EmitFields, Inside, Get, Put, Resolve,
      SqlIdent, KeyColumn, Clean, SitesHold, Ids, Distinct, Direct, Arrived, Ready, Has, HasAll, Set, Located, KeptKeys, KeyVars, Opened;
    var u, land, id := Located(f, slot, path, at, s, steps, n), Landing(f, at), SqlIdent(path + f.name);
    var list := Arrived(at.Mine(), at.row, f.plan, at.read);
    LocatedKept(f, slot, path, at, s, steps, n);
    KeptJoin(s, u, t, {id}, Ids(f.plan.fields, path + f.name));
    ResurfaceScopes(f, slot, path, at, s, steps, n, t);
    GroupStep(at.Mine(), at.row, f.plan, at.read);
    DeeperFacts(at, f.plan);
    ResurfaceOut(n, slot, list, land.0.pos, GroupLists(Deeper(at, f.plan).Mine() + [at.row], f.plan.fields, at.read),
                 s.out[s.rootPos], steps);
  }

  /** A slice takes a row: its key column is read, and a key leads to its element and on below. */
  lemma {:induction false} ChildStep(f: Field, slot: nat, target: Place, parent: string, path: string, at: Spot,
                                     s: State, steps: seq<Step>, n: Node) returns (t: State)
    requires ReadyOne(s, f, slot, target, parent, path, at, steps, n)
    ensures var out := ExecChild(EmitChild(f, slot, target, parent, path), at.row, at.read, s);
            if ReadsOne(at.Mine(), at.row, f.plan, at.read)
            then out == Done(t) && TakenOne(s, t, f, slot, path, at, steps, n) else out == Failed
    decreases f, 0
  {
    hide Keys, Group, Under, With, Composite, IndexIn, Fill, EmitFields, Inside, Get, Put, Resolve, SqlIdent, KeyColumn,
      Expected, Direct, Distinct, Clear, Ids, ChainsOpen, OneOpen, SitesHold, Locate, Ready, Located, Clean, Arrived;
    t := s;
    var c, name := KeyColumn(f.plan), SqlIdent(path + f.name);
    if c !in at.row {
      return;
    }
    if at.row[c].Null? {
      NullStep(f, slot, target, parent, path, at, s, steps, n);
      return s.(scopes := Declare(s.scopes, KeyVar(name), ""));
    }
    ParentFound(s, parent, name, at.row[c].text, at);
    LocateStep(f, slot, target, parent, path, at, s, steps, n);
    DeeperFacts(at, f.plan);
    if at.row[c].text !in Keys(at.Mine(), c) && Fill(f.plan.fields, at.row, at.read).None? {
      return;
    }
    var u, id, land := Located(f, slot, path, at, s, steps, n), SqlIdent(path + f.name), Landing(f, at);
    ReadyBelow(f, slot, target, parent, path, at, s, steps, n);
    t := FieldsStep(f.plan.fields, 0, Elem(target, slot, id), CompositeVar(id), path + f.name, Deeper(at, f.plan),
                    u, steps + [Step(slot, land.0.pos)], land.1);
    if ReadsOne(at.Mine(), at.row, f.plan, at.read) {
      Resurface(f, slot, target, parent, path, at, s, steps, n, t);
      t := t.(scopes := t.scopes[..|t.scopes| - 1]);
    }
  }

  lemma HeadReady(s: State, fields: seq<Field>, slot: nat, target: Place, parent: string, path: string,
                  at: Spot, steps: seq<Step>, n: Node)
    requires Ready(s, fields, slot, target, parent, path, at, steps, n) && fields != [] && fields[0].Slice?
    ensures ReadyOne(s, fields[0], slot, target, parent, path, at, steps, n)
  {
    assert n.lists[slot..][0] == n.lists[slot];
  }

  lemma TailReady(s: State, u: State, fields: seq<Field>, slot: nat, target: Place, parent: string, path: string,
                  at: Spot, steps: seq<Step>, n: Node)
    requires Ready(s, fields, slot, target, parent, path, at, steps, n) && fields != [] && fields[0].Slice?
    requires slot < |n.lists| && TakenOne(s, u, fields[0], slot, path, at, steps, n)
    ensures Ready(u, fields[1..], slot + 1, target, parent, path, at, steps,
                  n.(lists := n.lists[slot := Group(at.Mine() + [at.row], fields[0].plan, at.read)]))
  {
    hide Expected, Keys, Group, Under, With, Composite, IndexIn, Fill, EmitFields, Inside, Get, Put, Resolve,
      SqlIdent, KeyColumn, Clean, Has, HasAll, Spot.Ok, Spot.Mine;
    var m := n.(lists := n.lists[slot := Group(at.Mine() + [at.row], fields[0].plan, at.read)]);
    ResolveKept(target, s.positions, u.positions);
    PutFacts(s.out[s.rootPos], steps, m, m);
    SitesFrame(s.indexes, u.indexes, fields[1..], path, at.cols, at.rows);
    KeyStays(s, u, parent, at, {KeyVar(SqlIdent(path + fields[0].name))});
    assert m.lists[slot + 1..] == n.lists[slot..][1..];
  }

  lemma JoinTaken(s: State, u: State, t: State, fields: seq<Field>, slot: nat, target: Place, parent: string, path: string,
                  at: Spot, steps: seq<Step>, n: Node)
    requires Ready(s, fields, slot, target, parent, path, at, steps, n) && fields != [] && fields[0].Slice?
    requires slot < |n.lists| && TakenOne(s, u, fields[0], slot, path, at, steps, n)
    requires var m := n.(lists := n.lists[slot := Group(at.Mine() + [at.row], fields[0].plan, at.read)]);
             && Ready(u, fields[1..], slot + 1, target, parent, path, at, steps, m)
             && Taken(u, t, fields[1..], slot + 1, path, at, steps, m)
    ensures Taken(s, t, fields, slot, path, at, steps, n)
  {
    hide Expected, Keys, Group, Under, With, Composite, IndexIn, Fill, EmitFields, Inside, Get, Put, Resolve,
      SqlIdent, KeyColumn, Clean, Has, HasAll, Spot.Ok, Spot.Mine, SitesHold, SiteHolds, Replaced, Direct;
    var g := Group(at.Mine() + [at.row], fields[0].plan, at.read);
    var m := n.(lists := n.lists[slot := g]);
    var rest := GroupLists(at.Mine() + [at.row], fields[1..], at.read);
    assert m.lists[..slot + 1] + rest == n.lists[..slot] + ([g] + rest);
    ReplacedTwice(s, u, steps, m, m.(lists := m.lists[..slot + 1] + rest));
    SitesKept(u, t, fields, path, at);
    KeptJoin(s, u, t, {SqlIdent(path + fields[0].name)} + Ids(fields[0].plan.fields, path + fields[0].name),
             Ids(fields[1..], path));
    KeptKeysJoin(s.scopes, u.scopes, t.scopes, {KeyVar(SqlIdent(path + fields[0].name))}, KeyVars(fields[1..], path));
  }

  lemma SitesKept(u: State, t: State, fields: seq<Field>, path: string, at: Spot)
    requires fields != [] && fields[0].Slice? && Distinct(fields, path)
    requires Kept(u, t, Ids(fields[1..], path))
    requires SiteHolds(u.indexes, fields[0].name, fields[0].plan, path, at.cols, at.rows + [at.row])
    requires SitesHold(t.indexes, fields[1..], path, at.cols, at.rows + [at.row])
    ensures SitesHold(t.indexes, fields, path, at.cols, at.rows + [at.row])
  {
    var f := fields[0];
    SitesFrame(u.indexes, t.indexes, f.plan.fields, path + f.name, at.cols + [KeyColumn(f.plan)], at.rows + [at.row]);
  }

  /** A field that is no slice emits nothing and takes nothing. */
  lemma SkipField(s: State, fields: seq<Field>, slot: nat, target: Place, parent: string, path: string,
                  at: Spot, steps: seq<Step>, n: Node)
    requires Ready(s, fields, slot, target, parent, path, at, steps, n) && fields != [] && !fields[0].Slice?
    ensures Ready(s, fields[1..], slot, target, parent, path, at, steps, n)
    ensures EmitFields(fields, slot, target, parent, path) == EmitFields(fields[1..], slot, target, parent, path)
    ensures Reads(at.Mine(), at.row, fields, at.read) == Reads(at.Mine(), at.row, fields[1..], at.read)
    ensures forall t :: Taken(s, t, fields[1..], slot, path, at, steps, n) ==> Taken(s, t, fields, slot, path, at, steps, n)
  {
    assert forall rows: seq<Row> :: GroupLists(rows, fields, at.read) == GroupLists(rows, fields[1..], at.read);
    assert Ids(fields, path) == Ids(fields[1..], path);
    assert [] + EmitFields(fields[1..], slot, target, parent, path) == EmitFields(fields[1..], slot, target, parent, path);
    if fields[0].Struct? {
      EmitsNothing(fields[0].plan.fields, 0, Sub(target, fields[0].name), parent, path + fields[0].name);
    }
  }

  lemma ExecSlice(fields: seq<Field>, slot: nat, target: Place, parent: string, path: string, at: Spot, s: State)
    requires fields != [] && fields[0].Slice? && at.Ok()
    ensures Exec(EmitFields(fields, slot, target, parent, path), at.row, at.read, s) ==
            match ExecChild(EmitChild(fields[0], slot, target, parent, path), at.row, at.read, s)
            case Done(t) => Exec(EmitFields(fields[1..], slot + 1, target, parent, path), at.row, at.read, t)
            case other => other
    ensures Reads(at.Mine(), at.row, fields, at.read) <==>
            ReadsOne(at.Mine(), at.row, fields[0].plan, at.read) && Reads(at.Mine(), at.row, fields[1..], at.read)
  {
    var head, rest := EmitChild(fields[0], slot, target, parent, path), EmitFields(fields[1..], slot + 1, target, parent, path);
    assert ([head] + rest)[1..] == rest;
  }

  lemma NoFields(s: State, slot: nat, target: Place, parent: string, path: string, at: Spot, steps: seq<Step>, n: Node)
    requires Ready(s, [], slot, target, parent, path, at, steps, n)
    ensures Exec(EmitFields([], slot, target, parent, path), at.row, at.read, s) == Done(s)
    ensures Reads(at.Mine(), at.row, [], at.read) && Taken(s, s, [], slot, path, at, steps, n)
  {
    PutFacts(s.out[s.rootPos], steps, n, n);
    assert n.lists[..slot] + [] == n.lists;
    assert Replaced(s, steps, n) == s.out;
  }

  lemma ReadyBounds(s: State, fields: seq<Field>, slot: nat, target: Place, parent: string, path: string,
                    at: Spot, steps: seq<Step>, n: Node)
    requires Ready(s, fields, slot, target, parent, path, at, steps, n)
    ensures at.Ok() && s.rootPos < |s.out| && Inside(s.out[s.rootPos], steps) && slot <= |n.lists|
    ensures fields != [] && fields[0].Slice? ==> slot < |n.lists|
  {
  }

  lemma {:induction false} FieldsStep(fields: seq<Field>, slot: nat, target: Place, parent: string, path: string,
                                      at: Spot, s: State, steps: seq<Step>, n: Node) returns (t: State)
    requires Ready(s, fields, slot, target, parent, path, at, steps, n)
    ensures var out := Exec(EmitFields(fields, slot, target, parent, path), at.row, at.read, s);
            if Reads(at.Mine(), at.row, fields, at.read)
            then out == Done(t) && Taken(s, t, fields, slot, path, at, steps, n) else out == Failed
    decreases fields, 1
  {
    hide *;
    ReadyBounds(s, fields, slot, target, parent, path, at, steps, n);
    t := s;
    if fields == [] {
      NoFields(s, slot, target, parent, path, at, steps, n);
    } else if !fields[0].Slice? {
      SkipField(s, fields, slot, target, parent, path, at, steps, n);
      t := FieldsStep(fields[1..], slot, target, parent, path, at, s, steps, n);
    } else {
      HeadReady(s, fields, slot, target, parent, path, at, steps, n);
      ExecSlice(fields, slot, target, parent, path, at, s);
      var u := ChildStep(fields[0], slot, target, parent, path, at, s, steps, n);
      if ReadsOne(at.Mine(), at.row, fields[0].plan, at.read) {
        TailReady(s, u, fields, slot, target, parent, path, at, steps, n);
        var m := n.(lists := n.lists[slot := Group(at.Mine() + [at.row], fields[0].plan, at.read)]);
        t := FieldsStep(fields[1..], slot + 1, target, parent, path, at, u, steps, m);
        if Reads(at.Mine(), at.row, fields[1..], at.read) {
          JoinTaken(s, u, t, fields, slot, target, parent, path, at, steps, n);
        }
      }
    }
  }

  // --- The whole scan ---

  function Emitted(plan: Plan, name: string): Program {
    Program(plan, IndexDecls(plan.fields, name), EmitFields(plan.fields, 0, Root, ROOT_KEY, name))
  }

  /**
   * A plan whose scanner compiles, with no slice named Composite directly in a slice, and whose key
   * chains may hold a NUL at one level at most.
   */
  ghost predicate Scannable(plan: Plan, name: string, columns: set<string>) {
    && Direct(plan.fields) && Distinct(plan.fields, name) && ROOT_ID !in Ids(plan.fields, name)
    && RootUnclashing(plan.fields, name)
    && ChainsOpen(plan.fields, [KeyColumn(plan)], columns)
  }

  ghost predicate AllClean(rows: seq<Row>, columns: set<string>) {
    forall i :: 0 <= i < |rows| ==> Clean(rows[i], columns)
  }

  /** Between rows: the result is the group-by so far, and every index map is exact. */
  ghost predicate Scanned(s: State, plan: Plan, name: string, rows: seq<Row>, read: Reader) {
    && s.out == Group(rows, plan, read)
    && s.rootIndexes == Expected(rows, [KeyColumn(plan)])
    && SitesHold(s.indexes, plan.fields, name, [KeyColumn(plan)], rows)
  }

  /** The state a row's slices start from. */
  function Rooted(s: State, plan: Plan, rows: seq<Row>, row: Row, read: Reader): State
    requires Has(row, KeyColumn(plan))
  {
    var c := KeyColumn(plan);
    s.(scopes := [map[ROOT_KEY := row[c].text]], positions := map[],
       out := Arrived(rows, row, plan, read), rootPos := IndexIn(Keys(rows + [row], c), row[c].text),
       rootIndexes := Expected(rows + [row], [c]))
  }

  lemma RootStep(s: State, plan: Plan, name: string, rows: seq<Row>, row: Row, read: Reader, columns: set<string>)
    requires Scannable(plan, name, columns) && AllClean(rows, columns) && Clean(row, columns)
    requires Scanned(s, plan, name, rows, read) && Has(row, KeyColumn(plan))
    ensures ExecRow(Emitted(plan, name), row, read, s) ==
            if Key(row, KeyColumn(plan)) in Keys(rows, KeyColumn(plan)) || Fill(plan.fields, row, read).Some?
            then Exec(Emitted(plan, name).body, row, read, Rooted(s, plan, rows, row, read)) else Failed
  {
    var c := KeyColumn(plan);
    ExpectedIs(rows, [c], row, columns);
    assert [c][..0] == [];
    ExpectedSnoc(rows, row, [c]);
    KeysStep(rows, row, c);
    GroupShape(rows, plan, read);
  }

  lemma RootSpot(rows: seq<Row>, row: Row, c: string, columns: set<string>, read: Reader)
    requires AllClean(rows, columns) && Clean(row, columns) && Has(row, c)
    ensures var at := Spot([c], rows, row, columns, read); at.Ok() && at.Mine() == With(rows, c, row[c].text)
  {
    hide Clean, With;
    assert [c][..0] == [];
    NoColumns(rows, row, row);
    assert HasAll(row, [c]);
    UnderLast(rows, [c], row);
  }

  lemma CompositeOne(row: Row, c: string)
    requires Has(row, c)
    ensures HasAll(row, [c]) && Composite(row, [c]) == row[c].text
  {
  }

  lemma RootReady(s: State, plan: Plan, name: string, rows: seq<Row>, row: Row, read: Reader, columns: set<string>)
    requires Scannable(plan, name, columns) && AllClean(rows, columns) && Clean(row, columns)
    requires Scanned(s, plan, name, rows, read) && Has(row, KeyColumn(plan))
    ensures var at, u := Spot([KeyColumn(plan)], rows, row, columns, read), Rooted(s, plan, rows, row, read);
            && at.Ok() && at.Mine() == With(rows, KeyColumn(plan), row[KeyColumn(plan)].text)
            && u.rootPos < |u.out|
            && Ready(u, plan.fields, 0, Root, ROOT_KEY, name, at, [], u.out[u.rootPos])
  {
    var c := KeyColumn(plan);
    assert [c][..0] == [];
    GroupStep(rows, row, plan, read);
    var at, u := Spot([c], rows, row, columns, read), Rooted(s, plan, rows, row, read);
    RootSpot(rows, row, c, columns, read);
    CompositeOne(row, c);
    ClearAtRoot(plan.fields, name);
    hide Clear, RootUnclashing, Group, GroupLists, Keys, With, Fill, Expected, Composite, Under, IndexIn, KeyColumn, SitesHold, Direct, Distinct, Arrived;
    assert u.out[u.rootPos].lists[0..] == u.out[u.rootPos].lists;
  }

  lemma RootTaken(s: State, plan: Plan, name: string, rows: seq<Row>, row: Row, read: Reader, columns: set<string>, t: State)
    requires Scannable(plan, name, columns) && AllClean(rows, columns) && Clean(row, columns)
    requires Scanned(s, plan, name, rows, read) && Has(row, KeyColumn(plan))
    requires var at, u := Spot([KeyColumn(plan)], rows, row, columns, read), Rooted(s, plan, rows, row, read);
             && at.Ok() && at.Mine() == With(rows, KeyColumn(plan), row[KeyColumn(plan)].text)
             && u.rootPos < |u.out|
             && Taken(u, t, plan.fields, 0, name, at, [], u.out[u.rootPos])
    ensures Scanned(t, plan, name, rows + [row], read)
  {
    var u := Rooted(s, plan, rows, row, read);
    var n := u.out[u.rootPos];
    var after := GroupLists(With(rows, KeyColumn(plan), row[KeyColumn(plan)].text) + [row], plan.fields, read);
    GroupStep(rows, row, plan, read);
    assert n.lists[..0] + after == after;
    assert n.(lists := after) == Node(n.cells, after);
  }

  /** One row keeps the scan exact, and fails just when the row cannot be read. */
  lemma RowStep(s: State, plan: Plan, name: string, rows: seq<Row>, row: Row, read: Reader, columns: set<string>)
    returns (t: State)
    requires Scannable(plan, name, columns) && AllClean(rows, columns) && Clean(row, columns)
    requires Scanned(s, plan, name, rows, read)
    ensures var out := ExecRow(Emitted(plan, name), row, read, s);
            if Has(row, KeyColumn(plan)) && ReadsOne(rows, row, plan, read)
            then out == Done(t) && Scanned(t, plan, name, rows + [row], read) else out == Failed
  {
    t := s;
    if Has(row, KeyColumn(plan)) {
      hide Has, Scanned, Taken, Ready, Fill, Keys, With, Scannable, Exec, ExecRow, Rooted, Reads;
      var at, u := Spot([KeyColumn(plan)], rows, row, columns, read), Rooted(s, plan, rows, row, read);
      RootStep(s, plan, name, rows, row, read, columns);
      RootReady(s, plan, name, rows, row, read, columns);
      var v := FieldsStep(plan.fields, 0, Root, ROOT_KEY, name, at, u, [], u.out[u.rootPos]);
      if Reads(at.Mine(), at.row, plan.fields, at.read) {
        RootTaken(s, plan, name, rows, row, read, columns, v);
      }
      t := v;
    }
  }

  lemma {:induction false} DeclsAreIds(fields: seq<Field>, path: string)
    ensures forall id :: id in IndexDecls(fields, path) <==> id in Ids(fields, path)
  {
    if fields != [] {
      if fields[0].Slice? {
        DeclsAreIds(fields[0].plan.fields, path + fields[0].name);
      }
      DeclsAreIds(fields[1..], path);
    }
  }

  lemma {:induction false} SitesEmpty(indexes: map<string, map<string, nat>>, fields: seq<Field>, path: string, cols: seq<string>)
    requires forall id :: id in Ids(fields, path) ==> id in indexes && indexes[id] == map[]
    ensures SitesHold(indexes, fields, path, cols, [])
  {
    if fields != [] {
      if fields[0].Slice? {
        SitesEmpty(indexes, fields[0].plan.fields, path + fields[0].name, cols + [KeyColumn(fields[0].plan)]);
      }
      SitesEmpty(indexes, fields[1..], path, cols);
    }
  }

  /**
   * The emitted scanner is the nested group-by of its rows: it fails exactly when some row cannot
   * be read, never reaches an undeclared map or a missing element, and otherwise returns the
   * group-by with every index map exact.
   */
  lemma {:induction false} ScanIsGroupBy(plan: Plan, name: string, rows: seq<Row>, read: Reader, columns: set<string>)
    returns (s: State)
    requires Scannable(plan, name, columns) && AllClean(rows, columns)
    ensures var out := ExecRows(Emitted(plan, name), rows, read);
            if AllRead(rows, plan, read)
            then out == Done(s) && Scanned(s, plan, name, rows, read) else out == Failed
    ensures AllRead(rows, plan, read) ==> ElementsRead(s.out, plan, [], map[], rows, read)
    decreases |rows|
  {
    var p := Emitted(plan, name);
    s := Start(p);
    if rows == [] {
      DeclsAreIds(plan.fields, name);
      SitesEmpty(s.indexes, plan.fields, name, [KeyColumn(plan)]);
    } else {
      var n := |rows| - 1;
      s := ScanIsGroupBy(plan, name, rows[..n], read, columns);
      if AllRead(rows[..n], plan, read) {
        assert rows[..n] + [rows[n]] == rows;
        s := RowStep(s, plan, name, rows[..n], rows[n], read, columns);
      }
      hide Scanned, ReadsOne, Has, ExecRow, Emitted, Scannable;
    }
    if AllRead(rows, plan, read) {
      GroupOfRows(rows, plan, read);
      ScannedOut(s, plan, name, rows, read);
      hide *;
    }
  }

  // --- The emitter, and the emitted loop ---

  predicate KeyedOne(f: Field) {
    match f
    case Slice(_, plan) => HasKey(plan) && Keyed(plan.fields)
    case Struct(_, plan) => Keyed(plan.fields)
    case _ => true
  }

  function DeclsOne(f: Field, path: string): seq<string> {
    if f.Slice? then [SqlIdent(path + f.name)] + IndexDecls(f.plan.fields, path + f.name) else []
  }

  lemma FromField(fields: seq<Field>, i: nat, slot: nat, target: Place, parent: string, path: string)
    requires i < |fields|
    ensures Keyed(fields[i..]) <==> KeyedOne(fields[i]) && Keyed(fields[i + 1..])
    ensures IndexDecls(fields[i..], path) == DeclsOne(fields[i], path) + IndexDecls(fields[i + 1..], path)
    ensures EmitFields(fields[i..], slot, target, parent, path) ==
            match fields[i]
            case Struct(name, plan) =>
              EmitFields(plan.fields, 0, Sub(target, name), parent, path + name)
              + EmitFields(fields[i + 1..], slot, target, parent, path)
            case Slice(_, _) =>
              [EmitChild(fields[i], slot, target, parent, path)] + EmitFields(fields[i + 1..], slot + 1, target, parent, path)
            case _ => EmitFields(fields[i + 1..], slot, target, parent, path)
  {
    assert fields[i..][1..] == fields[i + 1..];
  }

  lemma OneField(f: Field, slot: nat, target: Place, parent: string, path: string)
    ensures f.Struct? ==> (KeyedOne(f) <==> Keyed(f.plan.fields))
    ensures f.Slice? ==> (KeyedOne(f) <==> HasKey(f.plan) && Keyed(f.plan.fields))
    ensures f.Slice? ==> var id := SqlIdent(path + f.name);
              EmitChild(f, slot, target, parent, path) ==
              Child(id, parent, target, slot, f.plan,
                    EmitFields(f.plan.fields, 0, Elem(target, slot, id), CompositeVar(id), path + f.name))
    ensures f.Scalar? || f.Unmapped? ==> KeyedOne(f)
  {
    hide Keyed, EmitFields, HasKey, SqlIdent;
  }

  lemma OneDecl(f: Field, path: string)
    ensures f.Slice? ==>
              && (KeyedOne(f) <==> HasKey(f.plan) && Keyed(f.plan.fields))
              && DeclsOne(f, path) == [SqlIdent(path + f.name)] + IndexDecls(f.plan.fields, path + f.name)
    ensures !f.Slice? ==> DeclsOne(f, path) == []
  {
  }

  lemma Regroup<T>(a: seq<T>, b: seq<T>, c: seq<T>)
    ensures a + (b + c) == (a + b) + c && a + [] == a
  {
  }

  lemma AllFields(fields: seq<Field>, slot: nat, target: Place, parent: string, path: string)
    ensures fields[0..] == fields && fields[|fields|..] == []
    ensures Keyed([]) && IndexDecls([], path) == [] && EmitFields([], slot, target, parent, path) == []
  {
  }

  method EmitIndexDecls(fields: seq<Field>, path: string) returns (r: Option<seq<string>>)
    ensures r.None? ==> !Keyed(fields)
    ensures r.Some? ==> r.value == IndexDecls(fields, path)
  {
    hide *;
    var decls := [];
    AllFields(fields, 0, Root, ROOT_KEY, path);
    for i := 0 to |fields|
      invariant IndexDecls(fields, path) == decls + IndexDecls(fields[i..], path)
      invariant Keyed(fields) ==> Keyed(fields[i..])
    {
      FromField(fields, i, 0, Root, ROOT_KEY, path);
      OneDecl(fields[i], path);
      Regroup(decls, DeclsOne(fields[i], path), IndexDecls(fields[i + 1..], path));
      if fields[i].Slice? {
        var plan := fields[i].plan;
        if !HasKey(plan) {
          return None;
        }
        var below := EmitIndexDecls(plan.fields, path + fields[i].name);
        if below.None? {
          return None;
        }
        decls := decls + ([SqlIdent(path + fields[i].name)] + below.value);
      }
    }
    Regroup(decls, [], []);
    return Some(decls);
  }

  method EmitSQLChildren(fields: seq<Field>, target: Place, parent: string, path: string) returns (r: Option<seq<Stmt>>)
    ensures r == if Keyed(fields) then Some(EmitFields(fields, 0, target, parent, path)) else None
  {
    hide *;
    var stmts, slot := [], 0;
    AllFields(fields, 0, target, parent, path);
    for i := 0 to |fields|
      invariant 0 <= slot
      invariant EmitFields(fields, 0, target, parent, path) == stmts + EmitFields(fields[i..], slot, target, parent, path)
      invariant Keyed(fields) <==> Keyed(fields[i..])
    {
      FromField(fields, i, slot, target, parent, path);
      OneField(fields[i], slot, target, parent, path);
      match fields[i] {
        case Struct(name, plan) =>
          Regroup(stmts, EmitFields(plan.fields, 0, Sub(target, name), parent, path + name),
                  EmitFields(fields[i + 1..], slot, target, parent, path));
          var below := EmitSQLChildren(plan.fields, Sub(target, name), parent, path + name);
          if below.None? {
            return None;
          }
          stmts := stmts + below.value;
        case Slice(name, plan) =>
          if !HasKey(plan) {
            return None;
          }
          var id := SqlIdent(path + name);
          var below := EmitSQLChildren(plan.fields, Elem(target, slot, id), CompositeVar(id), path + name);
          if below.None? {
            return None;
          }
          Regroup(stmts, [EmitChild(fields[i], slot, target, parent, path)],
                  EmitFields(fields[i + 1..], slot + 1, target, parent, path));
          stmts := stmts + [Child(id, parent, target, slot, plan, below.value)];
          slot := slot + 1;
        case _ =>
      }
    }
    AllFields(fields, slot, target, parent, path);
    assert stmts + [] == stmts;
    return Some(stmts);
  }

  method EmitScanRows(plan: Plan, name: string) returns (r: Option<Program>)
    ensures r == if HasKey(plan) && Keyed(plan.fields) then Some(Emitted(plan, name)) else None
  {
    if !HasKey(plan) {
      return None;
    }
    var decls := EmitIndexDecls(plan.fields, name);
    if decls.None? {
      return None;
    }
    var body := EmitSQLChildren(plan.fields, Root, ROOT_KEY, name);
    if body.None? {
      return None;
    }
    return Some(Program(plan, decls.value, body.value));
  }

  /** The emitted function: a loop over the rows that stops at the first error. */
  method ScanRows(plan: Plan, name: string, rows: seq<Row>, read: Reader, ghost columns: set<string>)
    returns (out: Option<seq<Node>>)
    requires Scannable(plan, name, columns) && AllClean(rows, columns)
    ensures out == if AllRead(rows, plan, read) then Some(Group(rows, plan, read)) else None
    ensures out.Some? ==> ElementsRead(out.value, plan, [], map[], rows, read)
  {
    hide *;
    ScanStarts(plan, name, read, columns);
    assert rows[..0] == [];
    var s := Start(Emitted(plan, name));
    for i := 0 to |rows|
      invariant AllRead(rows[..i], plan, read) && Scanned(s, plan, name, rows[..i], read)
    {
      ScanFacts(plan, rows, read, columns, i);
      ghost var t := RowStep(s, plan, name, rows[..i], rows[i], read, columns);
      match ExecRow(Emitted(plan, name), rows[i], read, s) {
        case Done(u) =>
          s := u;
        case _ =>
          return None;
      }
    }
    assert rows[..|rows|] == rows;
    ScannedOut(s, plan, name, rows, read);
    GroupOfRows(rows, plan, read);
    return Some(s.out);
  }

  lemma ScannedOut(s: State, plan: Plan, name: string, rows: seq<Row>, read: Reader)
    requires Scanned(s, plan, name, rows, read)
    ensures s.out == Group(rows, plan, read)
  {
  }

  lemma {:induction false} AllReadPrefix(rows: seq<Row>, plan: Plan, read: Reader, n: nat)
    requires n <= |rows| && AllRead(rows, plan, read)
    ensures AllRead(rows[..n], plan, read)
    decreases |rows|
  {
    if n < |rows| {
      AllReadPrefix(rows[..|rows| - 1], plan, read, n);
      assert rows[..|rows| - 1][..n] == rows[..n];
    } else {
      assert rows[..n] == rows;
    }
  }

  lemma ScanStarts(plan: Plan, name: string, read: Reader, columns: set<string>)
    requires Scannable(plan, name, columns)
    ensures AllRead([], plan, read) && Scanned(Start(Emitted(plan, name)), plan, name, [], read)
  {
    hide Scanned, Scannable, Emitted;
    var s := ScanIsGroupBy(plan, name, [], read, columns);
  }

  lemma ScanFacts(plan: Plan, rows: seq<Row>, read: Reader, columns: set<string>, i: nat)
    requires AllClean(rows, columns) && i < |rows|
    ensures AllClean(rows[..i], columns)
    ensures Clean(rows[i], columns) && rows[..i] + [rows[i]] == rows[..i + 1]
    ensures AllRead(rows[..i], plan, read) ==>
              (AllRead(rows[..i + 1], plan, read) <==>
               Has(rows[i], KeyColumn(plan)) && ReadsOne(rows[..i], rows[i], plan, read))
    ensures !AllRead(rows[..i + 1], plan, read) ==> !AllRead(rows, plan, read)
  {
    hide ReadsOne, Has, Clean, KeyColumn;
    assert rows[..i + 1][..i] == rows[..i];
    if AllRead(rows, plan, read) {
      AllReadPrefix(rows, plan, read, i + 1);
    }
  }

  // --- When the emitted function compiles ---

  function UsedIds(stmts: seq<Stmt>): seq<string> {
    if stmts == [] then [] else [stmts[0].id] + UsedIds(stmts[0].body) + UsedIds(stmts[1..])
  }

  lemma {:induction false} UsedJoin(a: seq<Stmt>, b: seq<Stmt>)
    ensures UsedIds(a + b) == UsedIds(a) + UsedIds(b)
    decreases |a|
  {
    if a == [] {
      assert a + b == b;
    } else {
      assert (a + b)[1..] == a[1..] + b;
      UsedJoin(a[1..], b);
    }
  }

  /** A struct field's slices are used but not declared: there are always at least as many uses. */
  lemma {:induction false} UsesDeclared(fields: seq<Field>, slot: nat, target: Place, parent: string, path: string)
    ensures |UsedIds(EmitFields(fields, slot, target, parent, path))| >= |IndexDecls(fields, path)|
    ensures Direct(fields) <==> UsedIds(EmitFields(fields, slot, target, parent, path)) == IndexDecls(fields, path)
    ensures !Direct(fields) ==> |UsedIds(EmitFields(fields, slot, target, parent, path))| > |IndexDecls(fields, path)|
    ensures SliceFree(fields) <==> UsedIds(EmitFields(fields, slot, target, parent, path)) == []
    decreases fields
  {
    if fields != [] {
      match fields[0] {
        case Struct(name, plan) =>
          var below := EmitFields(plan.fields, 0, Sub(target, name), parent, path + name);
          UsesDeclared(plan.fields, 0, Sub(target, name), parent, path + name);
          UsesDeclared(fields[1..], slot, target, parent, path);
          UsedJoin(below, EmitFields(fields[1..], slot, target, parent, path));
        case Slice(name, plan) =>
          var id := SqlIdent(path + name);
          UsesDeclared(plan.fields, 0, Elem(target, slot, id), CompositeVar(id), path + name);
          UsesDeclared(fields[1..], slot + 1, target, parent, path);
          UsedJoin([EmitChild(fields[0], slot, target, parent, path)],
                   EmitFields(fields[1..], slot + 1, target, parent, path));
        case _ =>
          UsesDeclared(fields[1..], slot, target, parent, path);
      }
    }
  }

  /** The smallest such plan: a struct field that holds one slice has its map used and none declared. */
  lemma SliceUnderStruct(a: string, b: string, child: Plan, path: string)
    requires SliceFree(child.fields)
    ensures var fields := [Struct(a, Plan([Slice(b, child)]))];
            && IndexDecls(fields, path) == []
            && UsedIds(EmitFields(fields, 0, Root, ROOT_KEY, path)) == [SqlIdent(path + a + b)]
  {
    var inner := [Slice(b, child)];
    var stmts := EmitFields(inner, 0, Sub(Root, a), ROOT_KEY, path + a);
    var outer := [Struct(a, Plan(inner))];
    assert inner[1..] == [] && outer[1..] == [];
    UsesDeclared(child.fields, 0, Elem(Sub(Root, a), 0, SqlIdent(path + a + b)), CompositeVar(SqlIdent(path + a + b)), path + a + b);
    var head := EmitChild(inner[0], 0, Sub(Root, a), ROOT_KEY, path + a);
    assert EmitFields(inner[1..], 1, Sub(Root, a), ROOT_KEY, path + a) == [];
    assert stmts == [head] + [];
    assert [head] + [] == [head] && stmts[1..] == [];
    assert EmitFields(outer, 0, Root, ROOT_KEY, path) == stmts + EmitFields(outer[1..], 0, Root, ROOT_KEY, path);
  }

  predicate NoDuplicates(ids: seq<string>) {
    ids == [] || (ids[0] !in ids[1..] && NoDuplicates(ids[1..]))
  }

  lemma {:induction false} NoDuplicatesJoin(a: seq<string>, b: seq<string>)
    ensures NoDuplicates(a + b) <==> NoDuplicates(a) && NoDuplicates(b) && forall x :: x in a ==> x !in b
  {
    if a == [] {
      assert a + b == b;
    } else {
      assert (a + b)[1..] == a[1..] + b;
      assert forall x :: x in a <==> x == a[0] || x in a[1..];
      NoDuplicatesJoin(a[1..], b);
    }
  }

  lemma {:induction false} DeclsDistinct(fields: seq<Field>, path: string)
    ensures NoDuplicates(IndexDecls(fields, path)) <==> Distinct(fields, path)
  {
    if fields != [] {
      var rest := IndexDecls(fields[1..], path);
      DeclsDistinct(fields[1..], path);
      DeclsAreIds(fields[1..], path);
      if fields[0].Slice? {
        var below, deeper := IndexDecls(fields[0].plan.fields, path + fields[0].name), path + fields[0].name;
        var id := SqlIdent(deeper);
        DeclsDistinct(fields[0].plan.fields, deeper);
        DeclsAreIds(fields[0].plan.fields, deeper);
        NoDuplicatesJoin([id], below);
        NoDuplicatesJoin([id] + below, rest);
        assert forall x :: x in [id] + below <==> x in {id} + Ids(fields[0].plan.fields, deeper);
        hide NoDuplicates, SqlIdent;
      } else {
        assert [] + rest == rest;
      }
    }
  }

  /** No index map is declared twice, the root's included, exactly when the identifiers are distinct and none is root. */
  lemma DeclaredOnce(fields: seq<Field>, path: string)
    ensures NoDuplicates([ROOT_ID] + IndexDecls(fields, path)) <==> Distinct(fields, path) && ROOT_ID !in Ids(fields, path)
  {
    DeclsDistinct(fields, path);
    DeclsAreIds(fields, path);
    NoDuplicatesJoin([ROOT_ID], IndexDecls(fields, path));
    assert [ROOT_ID][1..] == [];
    hide Ids, Distinct, IndexDecls;
  }
}
