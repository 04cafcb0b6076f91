/**
 * A plan whose scanner groups wrongly: a slice named Composite in a slice. The emitter names its key
 * variable as it names the composite key of the slice it is in, so the one overwrites the other.
 */
module SqlGroupClash {
  import opened ByteStrings
  import opened SqlGroup

  const AS_IS: Reader := (kind, cell) => Some(cell)

  function KeyField(column: string): Field {
    Scalar(column, column, "string", true)
  }

  lemma KeyHead(column: string, rest: seq<Field>, slot: nat, target: Place, parent: string, path: string,
                rows: seq<Row>, row: Row, cols: seq<string>, columns: set<string>)
    ensures var fields := [KeyField(column)] + rest;
            && KeyColumns(fields) == [column] + KeyColumns(rest)
            && EmitFields(fields, slot, target, parent, path) == EmitFields(rest, slot, target, parent, path)
            && IndexDecls(fields, path) == IndexDecls(rest, path) && Ids(fields, path) == Ids(rest, path)
            && Direct(fields) == Direct(rest) && Distinct(fields, path) == Distinct(rest, path)
            && ChainsOpen(fields, cols, columns) == ChainsOpen(rest, cols, columns)
            && ZeroLists(fields) == ZeroLists(rest) && GroupLists(rows, fields, AS_IS) == GroupLists(rows, rest, AS_IS)
            && Reads(rows, row, fields, AS_IS) == Reads(rows, row, rest, AS_IS)
            && (column in row && Fill(rest, row, AS_IS) == Some([]) ==> Fill(fields, row, AS_IS) == Some([row[column]]))
  {
    var fields := [KeyField(column)] + rest;
    assert fields[0] == KeyField(column) && fields[1..] == rest;
    assert IndexDecls(fields, path) == [] + IndexDecls(rest, path);
    assert Ids(fields, path) == {} + Ids(rest, path);
    assert GroupLists(rows, fields, AS_IS) == [] + GroupLists(rows, rest, AS_IS);
    if column in row && Fill(rest, row, AS_IS) == Some([]) {
      assert [row[column]] + [] == [row[column]];
    }
  }

  lemma SliceHead(f: Field, slot: nat, target: Place, parent: string, path: string,
                  rows: seq<Row>, row: Row, cols: seq<string>, columns: set<string>)
    requires f.Slice?
    ensures var fields, id, deeper := [f], SqlIdent(path + f.name), cols + [KeyColumn(f.plan)];
            && KeyColumns(fields) == []
            && EmitFields(fields, slot, target, parent, path) == [EmitChild(f, slot, target, parent, path)]
            && IndexDecls(fields, path) == [id] + IndexDecls(f.plan.fields, path + f.name)
            && Ids(fields, path) == {id} + Ids(f.plan.fields, path + f.name)
            && Direct(fields) == Direct(f.plan.fields)
            && (Distinct(fields, path) <==>
                id !in Ids(f.plan.fields, path + f.name) && Distinct(f.plan.fields, path + f.name))
            && (ChainsOpen(fields, cols, columns) <==>
                OneOpen(deeper, columns) && ChainsOpen(f.plan.fields, deeper, columns))
            && ZeroLists(fields) == [[]] && GroupLists(rows, fields, AS_IS) == [Group(rows, f.plan, AS_IS)]
            && Reads(rows, row, fields, AS_IS) == ReadsOne(rows, row, f.plan, AS_IS)
            && Fill(fields, row, AS_IS) == Some([])
  {
    hide SqlIdent, ReadsOne, Group, KeyColumn, EmitChild, OneOpen;
    assert [f][1..] == [];
    NoneLeft(slot + 1, target, parent, path, rows, row, cols, columns);
    assert KeyColumns([f]) == [] + [];
  }

  lemma NoneLeft(slot: nat, target: Place, parent: string, path: string,
                 rows: seq<Row>, row: Row, cols: seq<string>, columns: set<string>)
    ensures KeyColumns([]) == [] && EmitFields([], slot, target, parent, path) == []
    ensures IndexDecls([], path) == [] && Ids([], path) == {} && Direct([]) && Distinct([], path)
    ensures ChainsOpen([], cols, columns) && ZeroLists([]) == [] && GroupLists(rows, [], AS_IS) == []
    ensures Reads(rows, row, [], AS_IS) && Fill([], row, AS_IS) == Some([])
  {
  }

  lemma KeyThenSlice(column: string, f: Field, slot: nat, target: Place, parent: string, path: string,
                     rows: seq<Row>, row: Row, cols: seq<string>, columns: set<string>)
    requires f.Slice?
    ensures var fields, id, deeper := [KeyField(column)] + [f], SqlIdent(path + f.name), cols + [KeyColumn(f.plan)];
            && KeyColumn(Plan(fields)) == column
            && EmitFields(fields, slot, target, parent, path) == [EmitChild(f, slot, target, parent, path)]
            && IndexDecls(fields, path) == [id] + IndexDecls(f.plan.fields, path + f.name)
            && Ids(fields, path) == {id} + Ids(f.plan.fields, path + f.name)
            && Direct(fields) == Direct(f.plan.fields)
            && (Distinct(fields, path) <==>
                id !in Ids(f.plan.fields, path + f.name) && Distinct(f.plan.fields, path + f.name))
            && (ChainsOpen(fields, cols, columns) <==>
                OneOpen(deeper, columns) && ChainsOpen(f.plan.fields, deeper, columns))
            && ZeroLists(fields) == [[]] && GroupLists(rows, fields, AS_IS) == [Group(rows, f.plan, AS_IS)]
            && Reads(rows, row, fields, AS_IS) == ReadsOne(rows, row, f.plan, AS_IS)
            && (column in row ==> Fill(fields, row, AS_IS) == Some([row[column]]))
  {
    KeyHead(column, [f], slot, target, parent, path, rows, row, cols, columns);
    SliceHead(f, slot, target, parent, path, rows, row, cols, columns);
    hide SqlIdent, EmitFields, EmitChild, IndexDecls, Ids, Direct, Distinct, ChainsOpen, ZeroLists, GroupLists, Reads,
      Fill, OneOpen, ReadsOne, Group;
  }

  const ELEM_PLAN := Plan([KeyField("c")])
  const CHILD_PLAN := Plan([KeyField("a")] + [Slice("Composite", ELEM_PLAN)])
  const ROOT_PLAN := Plan([KeyField("t")] + [Slice("A", CHILD_PLAN)])

  lemma {:induction false} IdentPlain(s: string)
    requires forall i :: 0 <= i < |s| ==> IsIdentRune(s[i])
    ensures SqlIdent(s) == s
  {
    if s != [] {
      IdentPlain(s[1..]);
    }
  }

  const OUTER_ID := "TA"

  const INNER_ID := "TAComposite"

  function RowOf(a: string): Row {
    map["t" := Value("1"), "a" := Value(a), "c" := Value("7")]
  }

  function Inner(): Stmt {
    Child(INNER_ID, CompositeVar(OUTER_ID), Elem(Root, 0, OUTER_ID), 0, ELEM_PLAN, [])
  }

  function Outer(): Stmt {
    Child(OUTER_ID, ROOT_KEY, Root, 0, CHILD_PLAN, [Inner()])
  }

  lemma ElemFacts(slot: nat, target: Place, parent: string, path: string,
                  rows: seq<Row>, row: Row, cols: seq<string>, columns: set<string>)
    ensures var fields := ELEM_PLAN.fields;
            && KeyColumn(ELEM_PLAN) == "c" && EmitFields(fields, slot, target, parent, path) == []
            && IndexDecls(fields, path) == [] && Ids(fields, path) == {} && Direct(fields) && Distinct(fields, path)
            && ChainsOpen(fields, cols, columns)
            && ZeroLists(fields) == [] && GroupLists(rows, fields, AS_IS) == [] && Reads(rows, row, fields, AS_IS)
            && ("c" in row ==> Fill(fields, row, AS_IS) == Some([row["c"]]))
  {
    assert ELEM_PLAN.fields == [KeyField("c")] + [];
    KeyHead("c", [], slot, target, parent, path, rows, row, cols, columns);
    NoneLeft(slot, target, parent, path, rows, row, cols, columns);
    hide EmitFields, IndexDecls, Ids, Direct, Distinct, ChainsOpen, ZeroLists, GroupLists, Reads, Fill;
  }

  lemma InnerNamed()
    ensures OUTER_ID + "Composite" == INNER_ID && SqlIdent(INNER_ID) == INNER_ID
  {
    hide SqlIdent;
    IdentPlain(INNER_ID);
  }

  lemma InnerEmits(f: Field)
    requires f.Slice? && OUTER_ID + f.name == INNER_ID && f.plan == ELEM_PLAN
    ensures EmitChild(f, 0, Elem(Root, 0, OUTER_ID), CompositeVar(OUTER_ID), OUTER_ID) == Inner()
  {
    InnerNamed();
    ElemFacts(0, Elem(Elem(Root, 0, OUTER_ID), 0, INNER_ID), CompositeVar(INNER_ID), INNER_ID, [], map[], [], {});
    hide SqlIdent, EmitFields, ELEM_PLAN, CompositeVar, OUTER_ID, INNER_ID;
  }

  lemma ChildFacts(rows: seq<Row>, row: Row, cols: seq<string>, columns: set<string>)
    ensures var fields := CHILD_PLAN.fields;
            && KeyColumn(CHILD_PLAN) == "a"
            && EmitFields(fields, 0, Elem(Root, 0, OUTER_ID), CompositeVar(OUTER_ID), OUTER_ID) == [Inner()]
            && IndexDecls(fields, OUTER_ID) == [INNER_ID] && Ids(fields, OUTER_ID) == {INNER_ID}
            && Direct(fields) && Distinct(fields, OUTER_ID)
            && (ChainsOpen(fields, cols, columns) <==> OneOpen(cols + ["c"], columns))
            && ZeroLists(fields) == [[]] && GroupLists(rows, fields, AS_IS) == [Group(rows, ELEM_PLAN, AS_IS)]
            && (Reads(rows, row, fields, AS_IS) <==> ReadsOne(rows, row, ELEM_PLAN, AS_IS))
            && ("a" in row ==> Fill(fields, row, AS_IS) == Some([row["a"]]))
  {
    var f := Slice("Composite", ELEM_PLAN);
    assert CHILD_PLAN == Plan([KeyField("a")] + [f]);
    hide *;
    KeyThenSlice("a", f, 0, Elem(Root, 0, OUTER_ID), CompositeVar(OUTER_ID), OUTER_ID, rows, row, cols, columns);
    InnerNamed();
    InnerEmits(f);
    ElemFacts(0, Root, "", INNER_ID, rows, row, cols + ["c"], columns);
  }

  lemma PlanFacts(rows: seq<Row>, row: Row, cols: seq<string>, columns: set<string>)
    ensures var fields := ROOT_PLAN.fields;
            && KeyColumn(ROOT_PLAN) == "t"
            && EmitFields(fields, 0, Root, ROOT_KEY, "T") == [Outer()]
            && IndexDecls(fields, "T") == [OUTER_ID, INNER_ID] && Ids(fields, "T") == {OUTER_ID, INNER_ID}
            && Direct(fields) && Distinct(fields, "T")
            && (ChainsOpen(fields, cols, columns) <==> OneOpen(cols + ["a"], columns) && OneOpen(cols + ["a"] + ["c"], columns))
            && ZeroLists(fields) == [[]] && GroupLists(rows, fields, AS_IS) == [Group(rows, CHILD_PLAN, AS_IS)]
            && (Reads(rows, row, fields, AS_IS) <==> ReadsOne(rows, row, CHILD_PLAN, AS_IS))
            && ("t" in row ==> Fill(fields, row, AS_IS) == Some([row["t"]]))
  {
    var f := Slice("A", CHILD_PLAN);
    assert ROOT_PLAN.fields == [KeyField("t")] + [f];
    KeyThenSlice("t", f, 0, Root, ROOT_KEY, "T", rows, row, cols, columns);
    IdentPlain("T" + "A");
    assert "T" + "A" == OUTER_ID;
    ChildFacts(rows, row, cols + ["a"], columns);
    hide SqlIdent, EmitFields, IndexDecls, Ids, Direct, Distinct, ChainsOpen, ZeroLists, GroupLists, Reads, Fill, OneOpen,
      CompositeVar, ReadsOne, Group, KeyColumn;
    assert [OUTER_ID] + [INNER_ID] == [OUTER_ID, INNER_ID];
  }

  lemma AloneRun(c: Stmt, row: Row, read: Reader, s: State)
    ensures Exec([c], row, read, s) == ExecChild(c, row, read, s)
  {
    hide ExecChild;
    assert [c][1..] == [];
  }

  function RootNode(list: seq<Node>): Node {
    Node([Value("1")], [list])
  }

  function ANode(a: string, list: seq<Node>): Node {
    Node([Value(a)], [list])
  }

  const LEAF := Node([Value("7")], [])

  const SEVENS := "7" + NUL + "7"

  const SEVENS_SEEN: map<string, nat> := map[SEVENS := 0]

  lemma Appends(c: Stmt, composite: string, row: Row, read: Reader, s: State, steps: seq<Step>, n: Node)
    requires c.id in s.indexes && composite !in s.indexes[c.id] && Fill(c.plan.fields, row, read).Some?
    requires Stands(s, c.target, steps, n) && c.slot < |n.lists|
    ensures var pos: nat := |n.lists[c.slot]|;
            var child := Node(Fill(c.plan.fields, row, read).value, ZeroLists(c.plan.fields));
            var index: map<string, nat> := s.indexes[c.id][composite := pos];
            Locate(c, composite, row, read, s) ==
            Done(s.(out := Replaced(s, steps, Append(n, c.slot, child)),
                    positions := s.positions[c.id := pos], indexes := s.indexes[c.id := index]))
  {
    hide Fill, ZeroLists, Put, Resolve, Inside, Get;
  }

  lemma AppendOne(cells: seq<Cell>, list: seq<Node>, x: Node)
    ensures Append(Node(cells, [list]), 0, x) == Node(cells, [list + [x]])
  {
    assert [list][0 := list + [x]] == [list + [x]];
  }

  lemma OneDeep(n: Node, pos: nat, grown: Node)
    requires |n.lists| == 1 && pos < |n.lists[0]|
    ensures Inside(n, [Step(0, pos)]) && Get(n, [Step(0, pos)]) == n.lists[0][pos]
    ensures Put(n, [Step(0, pos)], grown) == Node(n.cells, [n.lists[0][pos := grown]])
  {
    assert [Step(0, pos)][1..] == [];
    assert n.lists[0 := n.lists[0][pos := grown]] == [n.lists[0][pos := grown]];
  }

  lemma InnerFacts(a: string)
    ensures var c, row := Inner(), RowOf(a);
            && KeyVar(c.id) == c.parent && c.id == INNER_ID && c.slot == 0 && c.body == []
            && KeyColumn(c.plan) == "c" && Has(row, "c") && row["c"].text == "7"
            && Fill(c.plan.fields, row, AS_IS) == Some([row["c"]]) && ZeroLists(c.plan.fields) == []
            && Node([row["c"]], []) == LEAF
  {
    assert KeyVar(INNER_ID) == CompositeVar(OUTER_ID);
    ElemFacts(0, Root, "", "", [], RowOf(a), [], {});
  }

  /** The first row finds no composite below, and appends an element. */
  lemma InnerAppends(s: State)
    requires s.scopes != [] && s.out == [RootNode([ANode("1", [])])] && s.rootPos == 0
    requires OUTER_ID in s.positions && s.positions[OUTER_ID] == 0 && INNER_ID in s.indexes && s.indexes[INNER_ID] == map[]
    ensures var out := ExecChild(Inner(), RowOf("1"), AS_IS, s);
            && out.Done? && out.state.out == [RootNode([ANode("1", [LEAF])])]
            && out.state.indexes == s.indexes[INNER_ID := SEVENS_SEEN]
            && out.state.rootIndexes == s.rootIndexes && out.state.scopes != []
  {
    var row, c := RowOf("1"), Inner();
    InnerFacts("1");
    ResolvesTo(s, 0);
    var n, u := s.out[0], s.(scopes := Opened(s.scopes, c.id, "7", SEVENS));
    assert |u.scopes| == |s.scopes| + 1;
    assert n.lists == [[ANode("1", [])]] && ANode("1", []).lists == [[]];
    hide Inner, RowOf, Opened, KeyColumn, Fill, ZeroLists, LEAF, ExecChild;
    ClashJoins(c, row, AS_IS, s);
    var a, grown := ANode("1", []), ANode("1", [LEAF]);
    assert [] + [LEAF] == [LEAF];
    OneDeep(n, 0, grown);
    Appends(c, SEVENS, row, AS_IS, u, [Step(0, 0)], a);
    AppendOne(a.cells, [], LEAF);
    hide Locate, Put, Inside, Get, Resolve;
    assert [n][0 := RootNode([grown])] == [RootNode([grown])];
    assert [ANode("1", [])][0 := grown] == [grown];
  }

  lemma ResolvesTo(s: State, pos: nat)
    requires OUTER_ID in s.positions && s.positions[OUTER_ID] == pos
    ensures Resolve(Inner().target, s.positions) == Some([Step(0, pos)])
  {
    assert [] + [Step(0, pos)] == [Step(0, pos)];
  }

  /** The second row finds the first row's composite, and appends nothing. */
  lemma InnerFinds(s: State, a: string)
    requires s.scopes != [] && INNER_ID in s.indexes && s.indexes[INNER_ID] == SEVENS_SEEN
    ensures var out := ExecChild(Inner(), RowOf(a), AS_IS, s);
            out.Done? && out.state.out == s.out && out.state.scopes != []
  {
    var row, c := RowOf(a), Inner();
    InnerFacts(a);
    var u := s.(scopes := Opened(s.scopes, c.id, "7", SEVENS));
    assert |u.scopes| == |s.scopes| + 1;
    hide Inner, RowOf, Opened, KeyColumn, Fill, ZeroLists, ExecChild;
    ClashJoins(c, row, AS_IS, s);
  }

  lemma OuterFacts(a: string, rows: seq<Row>)
    ensures var c, row := Outer(), RowOf(a);
            && KeyVar(c.id) != c.parent && c.id == OUTER_ID && c.slot == 0 && c.body == [Inner()] && c.target == Root
            && KeyColumn(c.plan) == "a" && Has(row, "a") && row["a"].text == a
            && Fill(c.plan.fields, row, AS_IS) == Some([Value(a)]) && ZeroLists(c.plan.fields) == [[]]
            && c.parent == ROOT_KEY
  {
    ChildFacts(rows, RowOf(a), [], {});
    NamedRoot(OUTER_ID);
    assert |ROOT_ID| == 4 && |OUTER_ID| == 2;
  }

  /** Each row finds no composite of its own A, and appends an A. */
  lemma OuterAppends(s: State, a: string, before: seq<Node>) returns (u: State)
    requires s.scopes == [map[ROOT_KEY := "1"]] && s.out == [RootNode(before)] && s.rootPos == 0
    requires OUTER_ID in s.indexes && "1" + NUL + a !in s.indexes[OUTER_ID]
    ensures ExecChild(Outer(), RowOf(a), AS_IS, s) == Closed(ExecChild(Inner(), RowOf(a), AS_IS, u))
    ensures u.out == [RootNode(before + [ANode(a, [])])] && u.rootPos == 0 && u.scopes != []
    ensures OUTER_ID in u.positions && u.positions[OUTER_ID] == |before| && u.rootIndexes == s.rootIndexes
    ensures forall id :: id != OUTER_ID && id in s.indexes ==> id in u.indexes && u.indexes[id] == s.indexes[id]
    ensures OUTER_ID in u.indexes && u.indexes[OUTER_ID].Keys == s.indexes[OUTER_ID].Keys + {"1" + NUL + a}
  {
    var row, c, n := RowOf(a), Outer(), s.out[0];
    OuterFacts(a, []);
    Declared(s.scopes, KeyVar(c.id), a);
    assert ValueIn(s.scopes, ROOT_KEY) == Some("1");
    var composite := "1" + NUL + a;
    u := s.(scopes := Opened(s.scopes, c.id, a, composite));
    assert |u.scopes| == |s.scopes| + 1;
    assert Resolve(Root, s.positions) == Some([]);
    assert Inside(n, []) && Get(n, []) == n;
    hide Outer, Inner, RowOf, Opened, Declare, ValueIn, KeyColumn, Fill, ZeroLists, KeyVar, Exec;
    AppendOne(n.cells, before, ANode(a, []));
    Appends(c, composite, row, AS_IS, u, [], n);
    assert Put(n, [], RootNode(before + [ANode(a, [])])) == RootNode(before + [ANode(a, [])]);
    var found := Locate(c, composite, row, AS_IS, u);
    hide Locate, Put;
    assert ExecChild(c, row, AS_IS, s) == Closed(Exec(c.body, row, AS_IS, found.state));
    AloneRun(Inner(), row, AS_IS, found.state);
    u := found.state;
  }

  lemma RowFacts(a: string)
    ensures var row := RowOf(a);
            && Has(row, "t") && row["t"].text == "1" && Fill(ROOT_PLAN.fields, row, AS_IS) == Some([Value("1")])
            && KeyColumn(ROOT_PLAN) == "t" && ZeroLists(ROOT_PLAN.fields) == [[]]
            && Emitted(ROOT_PLAN, "T") == Program(ROOT_PLAN, [OUTER_ID, INNER_ID], [Outer()])
  {
    PlanFacts([], RowOf(a), [], {});
  }

  lemma FirstStep() returns (s: State)
    ensures ExecRow(Emitted(ROOT_PLAN, "T"), RowOf("1"), AS_IS, Start(Emitted(ROOT_PLAN, "T"))) == Done(s)
    ensures s.out == [RootNode([ANode("1", [LEAF])])] && s.rootIndexes.Keys == {"1"} && s.rootIndexes["1"] == 0
    ensures OUTER_ID in s.indexes && s.indexes[OUTER_ID].Keys == {"1" + NUL + "1"}
    ensures INNER_ID in s.indexes && s.indexes[INNER_ID] == SEVENS_SEEN
  {
    RowFacts("1");
    var p := Emitted(ROOT_PLAN, "T");
    var t := State([RootNode([])], map["1" := 0], Start(p).indexes, 0, [map[ROOT_KEY := "1"]], map[]);
    assert [] + [RootNode([])] == [RootNode([])];
    assert Start(p).indexes == map[OUTER_ID := map[], INNER_ID := map[]];
    hide Emitted, RowOf, Outer, Inner, Fill, ZeroLists, KeyColumn, Exec;
    assert ExecRow(p, RowOf("1"), AS_IS, Start(p)) == Exec(p.body, RowOf("1"), AS_IS, t);
    AloneRun(Outer(), RowOf("1"), AS_IS, t);
    var u := OuterAppends(t, "1", []);
    assert [] + [ANode("1", [])] == [ANode("1", [])];
    hide ExecChild, ExecRow;
    InnerAppends(u);
    s := Closed(ExecChild(Inner(), RowOf("1"), AS_IS, u)).state;
  }

  lemma SecondStep(s: State) returns (t: State)
    requires s.out == [RootNode([ANode("1", [LEAF])])] && s.rootIndexes.Keys == {"1"} && s.rootIndexes["1"] == 0
    requires OUTER_ID in s.indexes && s.indexes[OUTER_ID].Keys == {"1" + NUL + "1"}
    requires INNER_ID in s.indexes && s.indexes[INNER_ID] == SEVENS_SEEN
    ensures ExecRow(Emitted(ROOT_PLAN, "T"), RowOf("2"), AS_IS, s) == Done(t)
    ensures t.out == [RootNode([ANode("1", [LEAF]), ANode("2", [])])]
  {
    RowFacts("2");
    var p := Emitted(ROOT_PLAN, "T");
    var u := s.(scopes := [map[ROOT_KEY := "1"]], positions := map[], rootPos := 0);
    assert ("1" + NUL + "1")[2] != ("1" + NUL + "2")[2];
    hide Emitted, RowOf, Outer, Inner, Fill, ZeroLists, KeyColumn, Exec;
    assert ExecRow(p, RowOf("2"), AS_IS, s) == Exec(p.body, RowOf("2"), AS_IS, u);
    AloneRun(Outer(), RowOf("2"), AS_IS, u);
    var v := OuterAppends(u, "2", [ANode("1", [LEAF])]);
    assert [ANode("1", [LEAF])] + [ANode("2", [])] == [ANode("1", [LEAF]), ANode("2", [])];
    hide ExecChild, ExecRow;
    InnerFinds(v, "2");
    t := Closed(ExecChild(Inner(), RowOf("2"), AS_IS, v)).state;
  }

  lemma TwoRows(r: Row, q: Row, c: string, k: string)
    ensures With([r, q], c, k) ==
            (if Has(r, c) && r[c].text == k then [r] else []) + (if Has(q, c) && q[c].text == k then [q] else [])
    ensures Has(r, c) && Has(q, c) ==>
              Keys([r, q], c) == if r[c].text == q[c].text then [r[c].text] else [r[c].text, q[c].text]
    ensures Has(q, c) ==> Keys([q], c) == [q[c].text] && With([q], c, q[c].text) == [q]
  {
    assert [r] + [q] == [r, q] && [] + [r] == [r] && [] + [q] == [q];
    WithSnoc([], r, c, k);
    WithSnoc([r], q, c, k);
    WithSnoc([], q, c, if Has(q, c) then q[c].text else k);
    assert Keys([], c) == [] && With([], c, k) == [];
  }

  function Rows(): seq<Row> {
    [RowOf("1"), RowOf("2")]
  }

  lemma RowKeys(a: string)
    ensures var row := RowOf(a);
            && Has(row, "t") && row["t"].text == "1" && Has(row, "a") && row["a"].text == a
            && Has(row, "c") && row["c"] == Value("7")
  {
  }

  lemma GroupBelow(q: Row)
    requires Has(q, "c") && q["c"] == Value("7") && Has(q, "a")
    ensures Group([q], ELEM_PLAN, AS_IS) == [LEAF]
    ensures GroupLists([q], CHILD_PLAN.fields, AS_IS) == [[LEAF]]
  {
    TwoRows(q, q, "c", "7");
    ElemFacts(0, Root, "", "", [q], q, [], {});
    ChildFacts([q], q, [], {});
    hide GroupLists, Keys, With, Fill, KeyColumn, CHILD_PLAN, ELEM_PLAN;
    GroupShape([q], ELEM_PLAN, AS_IS);
    hide Group;
    assert Group([q], ELEM_PLAN, AS_IS) == [LEAF];
  }

  /** The group-by of the two rows has an element in the second A's Composite. */
  lemma GroupHasBoth()
    ensures var g := Group(Rows(), ROOT_PLAN, AS_IS);
            && |g| == 1 && |g[0].lists| == 1 && |g[0].lists[0]| == 2
            && g[0].lists[0][1].lists == [[LEAF]]
  {
    var r, q := RowOf("1"), RowOf("2");
    RowKeys("1");
    RowKeys("2");
    TwoRows(r, q, "t", "1");
    TwoRows(r, q, "a", "2");
    assert "1" != "2" && [r] + [q] == [r, q] && [] + [q] == [q];
    PlanFacts(Rows(), q, [], {});
    ChildFacts([q], q, [], {});
    GroupBelow(q);
    hide RowOf, GroupLists, Keys, With, Fill, KeyColumn, ROOT_PLAN, CHILD_PLAN, ELEM_PLAN;
    GroupShape(Rows(), ROOT_PLAN, AS_IS);
    GroupShape(Rows(), CHILD_PLAN, AS_IS);
    hide Group;
    assert Keys(Rows(), "t") == ["1"] && With(Rows(), "t", "1") == Rows();
    assert Keys(Rows(), "a") == ["1", "2"] && With(Rows(), "a", "2") == [q];
  }

  lemma RowsRead()
    ensures AllRead(Rows(), ROOT_PLAN, AS_IS)
  {
    var r, q := RowOf("1"), RowOf("2");
    assert Rows()[..1] == [r] && [r][..0] == [];
    assert AllRead([], ROOT_PLAN, AS_IS);
    RowReads([], "1");
    RowReads([r], "2");
    hide ReadsOne, RowOf, KeyColumn;
    assert AllRead([r], ROOT_PLAN, AS_IS);
  }

  lemma RowReads(rows: seq<Row>, a: string)
    ensures Has(RowOf(a), KeyColumn(ROOT_PLAN)) && ReadsOne(rows, RowOf(a), ROOT_PLAN, AS_IS)
  {
    var row := RowOf(a);
    var under := With(rows, "t", "1");
    var below := With(under, "a", a);
    PlanFacts(under, row, [], {});
    ChildFacts(below, row, [], {});
    ElemFacts(0, Root, "", "", With(below, "c", "7"), row, [], {});
    hide Reads, Fill, KeyColumn, ROOT_PLAN, CHILD_PLAN, ELEM_PLAN, With, Keys;
    assert ReadsOne(below, row, ELEM_PLAN, AS_IS);
    assert ReadsOne(under, row, CHILD_PLAN, AS_IS);
  }

  /**
   * The smallest clash: two rows differ in a alone, the scan puts an element under the first A only,
   * and the group-by of the same rows has one under each. Nothing else stands in the plan's way.
   */
  lemma CompositeSlice() returns (s: State)
    ensures var plan, rows, columns := ROOT_PLAN, Rows(), {"t", "a", "c"};
            && Direct(plan.fields) && Distinct(plan.fields, "T") && ROOT_ID !in Ids(plan.fields, "T")
            && ChainsOpen(plan.fields, [KeyColumn(plan)], columns) && AllClean(rows, columns)
            && !RootUnclashing(plan.fields, "T") && AllRead(rows, plan, AS_IS)
    ensures ExecRows(Emitted(ROOT_PLAN, "T"), Rows(), AS_IS) == Done(s)
    ensures s.out == [RootNode([ANode("1", [LEAF]), ANode("2", [])])]
    ensures var g := Group(Rows(), ROOT_PLAN, AS_IS);
            && |g| == 1 && |g[0].lists| == 1 && |g[0].lists[0]| == 2
            && g[0].lists[0][1].lists == [[LEAF]]
  {
    var p := Emitted(ROOT_PLAN, "T");
    OnlyTheNameClashes();
    GroupHasBoth();
    RowsRead();
    s := FirstStep();
    assert Rows()[..1] == [RowOf("1")] && [RowOf("1")][..0] == [];
    hide ExecRow, Emitted, RowOf, AllRead, Group, Start;
    assert ExecRows(p, [RowOf("1")], AS_IS) == Done(s);
    s := SecondStep(s);
  }

  lemma OnlyTheNameClashes()
    ensures var plan, rows, columns := ROOT_PLAN, Rows(), {"t", "a", "c"};
            && Direct(plan.fields) && Distinct(plan.fields, "T") && ROOT_ID !in Ids(plan.fields, "T")
            && ChainsOpen(plan.fields, [KeyColumn(plan)], columns) && AllClean(rows, columns)
            && !RootUnclashing(plan.fields, "T")
  {
    RowClean("1");
    RowClean("2");
    PlanFacts([], RowOf("1"), ["t"], {"t", "a", "c"});
    assert |OUTER_ID| == 2 && |INNER_ID| == 11 && |ROOT_ID| == 4;
    NameClashes();
    hide ChainsOpen, Ids, Direct, Distinct, RowOf, Clean, ROOT_PLAN, KeyColumn, RootUnclashing;
  }

  lemma RowClean(a: string)
    requires NulFree(a)
    ensures Clean(RowOf(a), {"t", "a", "c"})
  {
  }

  lemma NameClashes()
    ensures !RootUnclashing(ROOT_PLAN.fields, "T")
  {
    IdentPlain("Composite");
    var f, below := Slice("A", CHILD_PLAN), Slice("Composite", ELEM_PLAN);
    assert ROOT_PLAN.fields[1..] == [f] && CHILD_PLAN.fields[1..] == [below];
    hide SqlIdent;
    assert !Unclashing([below]);
    assert !Unclashing(CHILD_PLAN.fields);
    assert !RootUnclashing([f], "T");
  }
}
